/** Which candidates for the summary there are, all of them, and in which order they
    are tried (structured.rs). */
module SummaryOrder {
  import opened Common
  import opened Text
  import opened SummaryJson

  // ---- What there is to find ----

  /** A place from which the summary may follow: behind a terminator, or the start of
      an answer without one. */
  ghost predicate RealCut(t: string, cut: nat) {
    || (exists p: nat :: At(t, "</analysis>", p) && p + 11 == cut)
    || (cut == 0 && forall p: nat :: !At(t, "</analysis>", p))
  }

  /** A place behind the cut at which an object may stand: the cut itself, or the end
      of a fence opener. */
  ghost predicate RealMarker(t: string, cut: nat, marker: nat) {
    marker == cut || exists p: nat :: cut <= p && At(t, "```json", p) && p + 7 == marker
  }

  /** Every terminator from the cut on stands inside `c`. */
  ghost predicate QuotesAll(t: string, cut: nat, c: Slice) {
    forall p: nat :: cut <= p && At(t, "</analysis>", p) ==> c.from <= p && p + 11 <= c.to
  }

  /** `c` is an object at `marker` behind `cut` that may be the summary. */
  ghost predicate Found(t: string, cut: nat, marker: nat, c: Slice) {
    RealCut(t, cut) && RealMarker(t, cut, marker) && IsObjectAt(t, marker, c) && QuotesAll(t, cut, c)
  }

  // ---- One marker ----

  lemma BraceIsNoSpace()
    ensures !IsWhitespace('{')
  {}

  /** Trimming skips the white space and nothing else. */
  lemma SkipsTo(t: string, marker: nat, from: nat)
    requires marker <= from < |t| && !IsWhitespace(t[from]) && forall i :: marker <= i < from ==> IsWhitespace(t[i])
    ensures |TrimStart(t[marker..])| == |t| - from
  {
    hide IsWhitespace, TrimStart;
    var rest := t[marker..];
    var k := |rest| - |TrimStart(rest)|;
    assert !IsWhitespace(rest[from - marker]);
    assert forall i :: 0 <= i < from - marker ==> rest[i] == t[marker + i];
    assert k <= from - marker;
    assert TrimStart(rest)[0] == rest[k];
  }

  lemma OneObject(t: string, marker: nat, c: Slice)
    requires marker <= |t| && IsObjectAt(t, marker, c)
    ensures LeadingObject(t, marker) == Some(c)
  {
    hide IsLeadingObject, ObjectLength, IsWhitespace, TrimStart;
    BraceIsNoSpace();
    HeadIsBrace(t[c.from..], c.to - c.from);
    SkipsTo(t, marker, c.from);
    ObjectIs(t[c.from..], c.to - c.from);
  }

  lemma HeadIsBrace(t: string, n: nat)
    requires IsLeadingObject(t, n)
    ensures t != "" && t[0] == '{'
  {}

  /** The count of terminators tells whether all of them are quoted. */
  lemma CountTells(t: string, cut: nat, c: Slice)
    requires cut <= c.from <= c.to <= |t|
    ensures |Matches(t[c.from..c.to], TERMINATOR, 0)| == |Matches(t[cut..], TERMINATOR, 0)| <==> QuotesAll(t, cut, c)
  {
    hide At, Matches;
    assert t[cut..] == t[cut..|t|];
    SliceCount(t, c.from, c.to);
    SliceCount(t, cut, |t|);
    var inner, outer := Occurrences(t, c.from, c.to), Occurrences(t, cut, |t|);
    assert inner <= outer;
    if |inner| == |outer| {
      SubsetOfEqualSize(inner, outer);
      forall p: nat | cut <= p && At(t, "</analysis>", p) ensures c.from <= p && p + 11 <= c.to {
        AtFits(t, TERMINATOR, p);
        assert p in outer;
      }
    }
    if QuotesAll(t, cut, c) { assert inner == outer; }
  }

  lemma AtFits(t: string, pat: string, p: nat)
    requires At(t, pat, p)
    ensures p + |pat| <= |t|
  {}

  // ---- One cut ----

  ghost predicate Descending(keys: seq<nat>) { forall i, j :: 0 <= i < j < |keys| ==> keys[i] > keys[j] }

  /** `c` is an object at marker `s` that quotes all terminators after the cut. */
  ghost predicate Offers(t: string, cut: nat, s: nat, c: Slice) { IsObjectAt(t, s, c) && QuotesAll(t, cut, c) }

  ghost predicate Offered(t: string, cut: nat, keys: seq<nat>, cs: seq<Slice>, s: nat, c: Slice)
    requires |keys| == |cs|
  {
    exists i :: 0 <= i < |keys| && keys[i] == s && cs[i] == c
  }

  /** `cs` are the objects at those of the markers that have one to offer, in order. */
  ghost predicate Keyed(t: string, cut: nat, starts: seq<nat>, keys: seq<nat>, cs: seq<Slice>) {
    && |keys| == |cs| && Descending(keys)
    && (forall i :: 0 <= i < |keys| ==> keys[i] in starts && Offers(t, cut, keys[i], cs[i]))
    && (forall s, c :: s in starts && Offers(t, cut, s, c) ==> Offered(t, cut, keys, cs, s, c))
  }

  lemma {:induction false} KeyedObjects(t: string, cut: nat, starts: seq<nat>) returns (keys: seq<nat>)
    requires Descending(starts) && cut <= |t| && forall i :: 0 <= i < |starts| ==> cut <= starts[i] <= |t|
    ensures Keyed(t, cut, starts, keys, Quoting(t, cut, ObjectsAt(t, starts)))
  {
    hide IsObjectAt, QuotesAll, LeadingObject, Keyed, Matches;
    if starts == [] {
      keys := [];
      NothingKeyed(t, cut);
    } else {
      var rest := starts[1..];
      assert forall i :: 0 <= i < |rest| ==> rest[i] == starts[i + 1];
      keys := KeyedObjects(t, cut, rest);
      var cs := Quoting(t, cut, ObjectsAt(t, rest));
      var head := LeadingObject(t, starts[0]);
      if head.Some? {
        var c := head.value;
        LeadingObjectStands(t, starts[0]);
        StandsBehind(t, starts[0], c);
        CountTells(t, cut, c);
        assert ([c] + ObjectsAt(t, rest))[1..] == ObjectsAt(t, rest);
        if QuotesAll(t, cut, c) {
          KeyedMore(t, cut, starts, keys, cs, c);
          keys := [starts[0]] + keys;
        } else {
          assert [] + cs == cs;
          KeyedLess(t, cut, starts, keys, cs);
        }
      } else {
        assert [] + ObjectsAt(t, rest) == ObjectsAt(t, rest);
        KeyedLess(t, cut, starts, keys, cs);
      }
    }
  }

  lemma NothingKeyed(t: string, cut: nat)
    requires cut <= |t|
    ensures Keyed(t, cut, [], [], Quoting(t, cut, ObjectsAt(t, [])))
  {}

  lemma DescendingCons(x: nat, keys: seq<nat>)
    requires Descending(keys) && forall i :: 0 <= i < |keys| ==> keys[i] < x
    ensures Descending([x] + keys)
  {
    var r := [x] + keys;
    assert forall i :: 0 < i < |r| ==> r[i] == keys[i - 1];
  }

  lemma Below(starts: seq<nat>, k: nat)
    requires starts != [] && Descending(starts) && k in starts[1..]
    ensures k in starts && k < starts[0]
  {
    var j :| 0 <= j < |starts[1..]| && starts[1..][j] == k;
    assert starts[j + 1] == k;
  }

  lemma OfferedCons(t: string, cut: nat, keys: seq<nat>, cs: seq<Slice>, x: nat, d: Slice, s: nat, c: Slice)
    requires |keys| == |cs| && (Offered(t, cut, keys, cs, s, c) || (s == x && c == d))
    ensures Offered(t, cut, [x] + keys, [d] + cs, s, c)
  {
    var ks, ds := [x] + keys, [d] + cs;
    if s == x && c == d {
      assert ks[0] == s && ds[0] == c;
    } else {
      var i :| 0 <= i < |keys| && keys[i] == s && cs[i] == c;
      assert ks[i + 1] == s && ds[i + 1] == c;
    }
  }

  lemma KeyedMore(t: string, cut: nat, starts: seq<nat>, keys: seq<nat>, cs: seq<Slice>, c: Slice)
    requires starts != [] && Descending(starts) && Keyed(t, cut, starts[1..], keys, cs)
    requires starts[0] <= |t| && Offers(t, cut, starts[0], c)
    ensures Keyed(t, cut, starts, [starts[0]] + keys, [c] + cs)
  {
    hide Offered, Descending, Offers;
    var x := starts[0];
    var ks, ds := [x] + keys, [c] + cs;
    forall i | 0 <= i < |keys| ensures keys[i] in starts && keys[i] < x { Below(starts, keys[i]); }
    DescendingCons(x, keys);
    forall i | 0 <= i < |ks| ensures ks[i] in starts && Offers(t, cut, ks[i], ds[i]) {
      if i > 0 { assert ks[i] == keys[i - 1] && ds[i] == cs[i - 1]; }
    }
    forall s, d | s in starts && Offers(t, cut, s, d) ensures Offered(t, cut, ks, ds, s, d) {
      if s == x {
        OffersOne(t, cut, s, c, d);
      } else {
        assert s in starts[1..];
      }
      OfferedCons(t, cut, keys, cs, x, c, s, d);
    }
  }

  lemma OffersOne(t: string, cut: nat, s: nat, c: Slice, d: Slice)
    requires s <= |t| && Offers(t, cut, s, c) && Offers(t, cut, s, d)
    ensures c == d
  {
    hide IsObjectAt, QuotesAll, LeadingObject;
    OneObject(t, s, c);
    OneObject(t, s, d);
  }

  lemma KeyedLess(t: string, cut: nat, starts: seq<nat>, keys: seq<nat>, cs: seq<Slice>)
    requires starts != [] && Keyed(t, cut, starts[1..], keys, cs) && starts[0] <= |t|
    requires var head := LeadingObject(t, starts[0]); head.Some? ==> !QuotesAll(t, cut, head.value)
    ensures Keyed(t, cut, starts, keys, cs)
  {
    hide IsObjectAt, QuotesAll, LeadingObject, Offered;
    forall s, d | s in starts && Offers(t, cut, s, d) ensures Offered(t, cut, keys, cs, s, d) {
      if s == starts[0] {
        OneObject(t, s, d);
        assert false;
      } else {
        assert s in starts[1..];
      }
    }
  }

  /** The markers behind a cut, last first, and the cut itself after all of them. */
  lemma MarkersDescend(t: string, cut: nat)
    requires cut <= |t|
    ensures var starts := Ends(Reversed(Matches(t, FENCE, cut)), |FENCE|) + [cut];
            && Descending(starts)
            && (forall i :: 0 <= i < |starts| ==> cut <= starts[i] <= |t|)
            && (forall marker: nat :: marker in starts <==> RealMarker(t, cut, marker))
  {
    hide At, Matches, RealMarker;
    var ms := Matches(t, FENCE, cut);
    MatchesIncrease(t, FENCE, cut);
    forall i | 0 <= i < |ms| ensures cut <= ms[i] && ms[i] + 7 <= |t| { AtFits(t, FENCE, ms[i]); }
    forall marker: nat
      ensures marker in Ends(Reversed(ms), |FENCE|) + [cut] <==> RealMarker(t, cut, marker)
    {
      MarkerIsReal(t, cut, marker);
    }
  }

  lemma MarkerIsReal(t: string, cut: nat, marker: nat)
    requires cut <= |t|
    ensures marker in Ends(Reversed(Matches(t, FENCE, cut)), |FENCE|) + [cut] <==> RealMarker(t, cut, marker)
  {
    hide At, Matches;
    MarkersEndOnce();
    var ms := Matches(t, FENCE, cut);
    var ends := Ends(Reversed(ms), |FENCE|);
    if marker in ends {
      var i :| 0 <= i < |ends| && ends[i] == marker;
      assert At(t, "```json", ms[|ms| - 1 - i]);
    }
    if p: nat :| cut <= p && At(t, "```json", p) && p + 7 == marker {
      MatchesAreAll(t, FENCE, cut, p);
      var i :| 0 <= i < |ms| && ms[i] == p;
      assert ends[|ms| - 1 - i] == marker;
    }
  }

  // ---- All cuts ----

  lemma CutsExact(t: string)
    ensures var cuts := Reversed(Cuts(t));
            && Descending(cuts)
            && (forall i :: 0 <= i < |cuts| ==> cuts[i] <= |t|)
            && (forall cut: nat :: cut in cuts <==> RealCut(t, cut))
  {
    hide RealCut, Matches, Cuts;
    var cuts := Reversed(Cuts(t));
    CutsIncrease(t);
    assert Descending(cuts) by {
      forall i, j | 0 <= i < j < |cuts| ensures cuts[i] > cuts[j] {}
    }
    forall cut: nat ensures cut in cuts <==> RealCut(t, cut) {
      CutIsReal(t, cut);
      ReversedHas(Cuts(t), cut);
    }
  }

  lemma ReversedHas(s: seq<nat>, x: nat)
    ensures x in Reversed(s) <==> x in s
  {
    if x in s {
      var i :| 0 <= i < |s| && s[i] == x;
      assert Reversed(s)[|s| - 1 - i] == x;
    }
  }

  lemma CutsIncrease(t: string)
    ensures Increasing(Cuts(t))
  {
    hide Matches, At;
    var ps := Matches(t, TERMINATOR, 0);
    MatchesIncrease(t, TERMINATOR, 0);
    if ps != [] {
      forall i, j | 0 <= i < j < |ps| ensures Cuts(t)[i] < Cuts(t)[j] { assert ps[i] < ps[j]; }
    }
  }

  lemma CutIsReal(t: string, cut: nat)
    ensures cut in Cuts(t) <==> RealCut(t, cut)
  {
    hide At, Matches;
    MarkersEndOnce();
    var ps := Matches(t, TERMINATOR, 0);
    if ps == [] {
      forall p: nat ensures !At(t, "</analysis>", p) {
        if At(t, "</analysis>", p) {
          MatchesAreAll(t, TERMINATOR, 0, p);
          assert false;
        }
      }
    } else {
      assert At(t, "</analysis>", ps[0]);
      if cut in Cuts(t) {
        var i :| 0 <= i < |ps| && Cuts(t)[i] == cut;
        assert At(t, "</analysis>", ps[i]);
      }
      if p: nat :| At(t, "</analysis>", p) && p + 11 == cut {
        MatchesAreAll(t, TERMINATOR, 0, p);
        var i :| 0 <= i < |ps| && ps[i] == p;
        assert Cuts(t)[i] == cut;
      }
    }
  }

  datatype Key = Key(cut: nat, marker: nat)

  /** Last cut first, and of one cut the last marker first. */
  ghost predicate InOrder(keys: seq<Key>) {
    forall i, j :: 0 <= i < j < |keys| ==>
      keys[i].cut > keys[j].cut || (keys[i].cut == keys[j].cut && keys[i].marker > keys[j].marker)
  }

  ghost predicate Listed(keys: seq<Key>, cs: seq<Slice>, key: Key, c: Slice)
    requires |keys| == |cs|
  {
    exists i :: 0 <= i < |keys| && keys[i] == key && cs[i] == c
  }

  /** `cs` are all that is to be found behind `cuts`, in order. */
  ghost predicate Lists(t: string, cuts: seq<nat>, keys: seq<Key>, cs: seq<Slice>) {
    && |keys| == |cs| && InOrder(keys)
    && (forall i :: 0 <= i < |keys| ==> keys[i].cut in cuts && Found(t, keys[i].cut, keys[i].marker, cs[i]))
    && (forall cut: nat, marker: nat, c :: cut in cuts && Found(t, cut, marker, c) ==>
          Listed(keys, cs, Key(cut, marker), c))
  }

  function KeysOf(cut: nat, markers: seq<nat>): seq<Key> {
    seq(|markers|, i requires 0 <= i < |markers| => Key(cut, markers[i]))
  }

  lemma OrderedConcat(cut: nat, markers: seq<nat>, keys: seq<Key>)
    requires Descending(markers) && InOrder(keys) && forall i :: 0 <= i < |keys| ==> keys[i].cut < cut
    ensures InOrder(KeysOf(cut, markers) + keys)
  {
    var n, all := |markers|, KeysOf(cut, markers) + keys;
    assert forall i :: n <= i < |all| ==> all[i] == keys[i - n];
  }

  lemma ListedConcat(a: seq<Key>, cs: seq<Slice>, b: seq<Key>, ds: seq<Slice>, key: Key, c: Slice)
    requires |a| == |cs| && |b| == |ds| && (Listed(a, cs, key, c) || Listed(b, ds, key, c))
    ensures Listed(a + b, cs + ds, key, c)
  {
    var keys, all := a + b, cs + ds;
    if Listed(a, cs, key, c) {
      var i :| 0 <= i < |a| && a[i] == key && cs[i] == c;
      assert keys[i] == key && all[i] == c;
    } else {
      var i :| 0 <= i < |b| && b[i] == key && ds[i] == c;
      assert keys[|a| + i] == key && all[|a| + i] == c;
    }
  }

  /** What `CutExact` says of one cut. */
  ghost predicate OfCut(t: string, cut: nat, markers: seq<nat>, ds: seq<Slice>) {
    && |markers| == |ds| && Descending(markers)
    && (forall i :: 0 <= i < |markers| ==> Found(t, cut, markers[i], ds[i]))
    && (forall marker: nat, c :: Found(t, cut, marker, c) ==> Listed(KeysOf(cut, markers), ds, Key(cut, marker), c))
  }

  /** Behind one cut: one candidate for every marker that has a fitting object, last
      fence first, the object at the cut itself after all of them. */
  lemma CutExact(t: string, cut: nat) returns (markers: seq<nat>)
    requires RealCut(t, cut) && cut <= |t|
    ensures OfCut(t, cut, markers, CandidatesAfter(t, cut))
  {
    hide RealCut, RealMarker, IsObjectAt, QuotesAll, Quoting, ObjectsAt, Matches, Offered, Listed;
    var starts := Ends(Reversed(Matches(t, FENCE, cut)), |FENCE|) + [cut];
    MarkersDescend(t, cut);
    markers := KeyedObjects(t, cut, starts);
    var cs := CandidatesAfter(t, cut);
    forall marker: nat, c | Found(t, cut, marker, c)
      ensures Listed(KeysOf(cut, markers), cs, Key(cut, marker), c)
    {
      assert marker in starts && Offers(t, cut, marker, c);
      OfferedIsListed(t, cut, markers, cs, marker, c);
    }
  }

  lemma OfferedIsListed(t: string, cut: nat, keys: seq<nat>, cs: seq<Slice>, s: nat, c: Slice)
    requires |keys| == |cs| && Offered(t, cut, keys, cs, s, c)
    ensures Listed(KeysOf(cut, keys), cs, Key(cut, s), c)
  {
    var i :| 0 <= i < |keys| && keys[i] == s && cs[i] == c;
    assert KeysOf(cut, keys)[i] == Key(cut, s);
  }

  lemma ListsMore(t: string, cuts: seq<nat>, markers: seq<nat>, ds: seq<Slice>, keys: seq<Key>, cs: seq<Slice>)
    requires cuts != [] && Descending(cuts) && Lists(t, cuts[1..], keys, cs) && OfCut(t, cuts[0], markers, ds)
    ensures Lists(t, cuts, KeysOf(cuts[0], markers) + keys, ds + cs)
  {
    hide Found, Listed, Descending, InOrder;
    var n, x := |markers|, cuts[0];
    var ks := KeysOf(x, markers);
    var all, es := ks + keys, ds + cs;
    forall i | 0 <= i < |keys| ensures keys[i].cut in cuts && keys[i].cut < x { Below(cuts, keys[i].cut); }
    OrderedConcat(x, markers, keys);
    forall i | 0 <= i < |all| ensures all[i].cut in cuts && Found(t, all[i].cut, all[i].marker, es[i]) {
      if i >= n { assert all[i] == keys[i - n] && es[i] == cs[i - n]; }
    }
    forall cut: nat, marker: nat, c | cut in cuts && Found(t, cut, marker, c)
      ensures Listed(all, es, Key(cut, marker), c)
    {
      assert cut == x || cut in cuts[1..];
      ListedConcat(ks, ds, keys, cs, Key(cut, marker), c);
    }
  }

  lemma {:induction false} AllCutsExact(t: string, cuts: seq<nat>) returns (keys: seq<Key>)
    requires Descending(cuts) && forall i :: 0 <= i < |cuts| ==> cuts[i] <= |t| && RealCut(t, cuts[i])
    ensures Lists(t, cuts, keys, CandidatesAfterAll(t, cuts))
  {
    hide Found, RealCut, CandidatesAfter, Lists;
    if cuts == [] {
      keys := [];
      NothingListed(t);
    } else {
      assert forall i :: 0 <= i < |cuts[1..]| ==> cuts[1..][i] == cuts[i + 1];
      keys := AllCutsExact(t, cuts[1..]);
      var markers := CutExact(t, cuts[0]);
      ListsMore(t, cuts, markers, CandidatesAfter(t, cuts[0]), keys, CandidatesAfterAll(t, cuts[1..]));
      keys := KeysOf(cuts[0], markers) + keys;
    }
  }

  lemma NothingListed(t: string)
    ensures Lists(t, [], [], CandidatesAfterAll(t, []))
  {}

  // ---- Neighbours with the same text ----

  /** `cs` falls into runs of slices with one text; `r` holds the first of each, and
      no two neighbours in `r` have the same text. */
  ghost predicate FirstOfRuns(t: string, runs: seq<seq<Slice>>, r: seq<Slice>) {
    && |runs| == |r|
    && (forall i :: 0 <= i < |r| ==> runs[i] != [] && r[i] == runs[i][0])
    && (forall i, k :: 0 <= i < |runs| && 0 <= k < |runs[i]| ==> TextOf(t, runs[i][k]) == TextOf(t, r[i]))
    && (forall i, j :: 0 <= i && j == i + 1 && j < |r| ==> TextOf(t, r[i]) != TextOf(t, r[j]))
  }

  lemma {:induction false} FlatCons<T>(run: seq<T>, runs: seq<seq<T>>)
    ensures Flat([run] + runs) == run + Flat(runs)
  {
    if runs == [] {
      assert [run] + runs == [] + [run];
      FlatSnoc([], run);
    } else {
      var n := |runs| - 1;
      FlatCons(run, runs[..n]);
      assert ([run] + runs)[..n + 1] == [run] + runs[..n];
    }
  }

  lemma DedupHead(t: string, cs: seq<Slice>)
    requires cs != []
    ensures Dedup(t, cs) != [] && Dedup(t, cs)[0] == cs[0]
    decreases |cs|
  {
    if |cs| > 1 && TextOf(t, cs[0]) == TextOf(t, cs[1]) { DedupHead(t, [cs[0]] + cs[2..]); }
  }

  lemma RunGrows(t: string, runs: seq<seq<Slice>>, r: seq<Slice>, c: Slice)
    requires r != [] && FirstOfRuns(t, runs, r) && TextOf(t, c) == TextOf(t, r[0])
    ensures FirstOfRuns(t, [[r[0], c] + runs[0][1..]] + runs[1..], r)
  {
    hide TextOf;
    var grown := [[r[0], c] + runs[0][1..]] + runs[1..];
    forall i, k | 0 <= i < |grown| && 0 <= k < |grown[i]| ensures TextOf(t, grown[i][k]) == TextOf(t, r[i]) {
      if i == 0 {
        if k > 1 { assert grown[0][k] == runs[0][k - 1]; }
      } else {
        assert grown[i] == runs[i];
      }
    }
  }

  lemma RunAdded(t: string, runs: seq<seq<Slice>>, r: seq<Slice>, c: Slice)
    requires FirstOfRuns(t, runs, r) && (r != [] ==> TextOf(t, c) != TextOf(t, r[0]))
    ensures FirstOfRuns(t, [[c]] + runs, [c] + r)
  {
    hide TextOf;
    var all, s := [[c]] + runs, [c] + r;
    forall i, k | 0 <= i < |all| && 0 <= k < |all[i]| ensures TextOf(t, all[i][k]) == TextOf(t, s[i]) {
      if i > 0 { assert all[i] == runs[i - 1] && s[i] == r[i - 1]; }
    }
    forall i, j | 0 <= i && j == i + 1 && j < |s| ensures TextOf(t, s[i]) != TextOf(t, s[j]) {
      assert s[j] == r[i];
      if i > 0 { assert s[i] == r[i - 1]; }
    }
  }

  /** Of neighbours with the same text exactly the first stays. */
  lemma {:induction false} DedupExact(t: string, cs: seq<Slice>) returns (runs: seq<seq<Slice>>)
    ensures Flat(runs) == cs && FirstOfRuns(t, runs, Dedup(t, cs))
    decreases |cs|
  {
    hide TextOf, FirstOfRuns, Flat;
    FlatNothing<Slice>();
    NothingRuns(t);
    if cs == [] {
      runs := [];
    } else if |cs| == 1 {
      runs := [[cs[0]]] + [];
      FlatCons([cs[0]], []);
      RunAdded(t, [], [], cs[0]);
      assert cs == [cs[0]] + [];
    } else if TextOf(t, cs[0]) == TextOf(t, cs[1]) {
      var less := [cs[0]] + cs[2..];
      runs := DedupExact(t, less);
      DedupHead(t, less);
      var r := Dedup(t, less);
      RunHead(t, runs, r);
      RunGrows(t, runs, r, cs[1]);
      FlatInserted(runs, cs[1]);
      assert less[1..] == cs[2..];
      assert cs == [cs[0], cs[1]] + cs[2..];
      runs := [[r[0], cs[1]] + runs[0][1..]] + runs[1..];
    } else {
      runs := DedupExact(t, cs[1..]);
      DedupHead(t, cs[1..]);
      RunAdded(t, runs, Dedup(t, cs[1..]), cs[0]);
      FlatCons([cs[0]], runs);
      assert cs == [cs[0]] + cs[1..];
      runs := [[cs[0]]] + runs;
    }
  }

  /** One more element behind the first. */
  lemma FlatInserted<T>(runs: seq<seq<T>>, x: T)
    requires runs != [] && runs[0] != []
    ensures Flat(runs) != []
    ensures Flat([[runs[0][0], x] + runs[0][1..]] + runs[1..]) == [Flat(runs)[0], x] + Flat(runs)[1..]
  {
    hide Flat;
    var head, tail, more := runs[0][0], runs[0][1..], runs[1..];
    assert runs == [runs[0]] + more && runs[0] == [head] + tail;
    FlatCons(runs[0], more);
    FlatCons([head, x] + tail, more);
    assert Flat(runs)[1..] == tail + Flat(more);
    assert ([head, x] + tail) + Flat(more) == [head, x] + (tail + Flat(more));
  }

  lemma NothingRuns(t: string)
    ensures FirstOfRuns(t, [], [])
  {}

  lemma RunHead(t: string, runs: seq<seq<Slice>>, r: seq<Slice>)
    requires r != [] && FirstOfRuns(t, runs, r)
    ensures |runs| == |r| && runs[0] != [] && runs[0][0] == r[0]
  {}

  // ---- The candidates ----

  /** The candidates are, in this order: for the last cut to the first, and for the
      last marker behind it to the cut itself, the object that stands there and quotes
      every terminator after the cut; then a leading object of the whole answer. Of
      neighbours with the same text only the first is kept. */
  lemma CandidatesExact(t: string) returns (cuts: seq<nat>, keys: seq<Key>, cs: seq<Slice>)
    ensures forall cut: nat :: cut in cuts <==> RealCut(t, cut)
    ensures Lists(t, cuts, keys, cs)
    ensures var whole := LeadingObject(t, 0);
            JsonCandidates(t) == Dedup(t, cs + if whole.Some? then [whole.value] else [])
  {
    hide Lists, LeadingObject, Dedup, CandidatesAfterAll, Cuts, RealCut;
    cuts := Reversed(Cuts(t));
    CutsExact(t);
    keys := AllCutsExact(t, cuts);
    cs := CandidatesAfterAll(t, cuts);
  }

  /** Nothing that may be the summary is missed: its text is among the candidates. */
  lemma NothingMissed(t: string, cut: nat, marker: nat, c: Slice)
    requires Found(t, cut, marker, c)
    ensures exists d :: d in JsonCandidates(t) && TextOf(t, d) == TextOf(t, c)
  {
    hide RealCut, Dedup, TextOf, LeadingObject, JsonCandidates, IsObjectAt, QuotesAll, RealMarker;
    var cuts, keys, cs := CandidatesExact(t);
    assert Listed(keys, cs, Key(cut, marker), c);
    var i :| 0 <= i < |keys| && keys[i] == Key(cut, marker) && cs[i] == c;
    var whole := LeadingObject(t, 0);
    var all := cs + if whole.Some? then [whole.value] else [];
    assert all[i] == c;
    DedupKeepsTexts(t, all, c);
  }

  lemma {:induction false} DedupKeepsTexts(t: string, cs: seq<Slice>, c: Slice)
    requires c in cs
    ensures exists d :: d in Dedup(t, cs) && TextOf(t, d) == TextOf(t, c)
    decreases |cs|
  {
    hide TextOf;
    if |cs| > 1 {
      if TextOf(t, cs[0]) == TextOf(t, cs[1]) {
        var less := [cs[0]] + cs[2..];
        assert cs == [cs[0], cs[1]] + cs[2..];
        if c in cs[2..] {
          assert c in less;
          DedupKeepsTexts(t, less, c);
        } else {
          assert less[0] in less;
          DedupKeepsTexts(t, less, cs[0]);
        }
      } else if c == cs[0] {
        assert Dedup(t, cs)[0] == c;
      } else {
        assert cs == [cs[0]] + cs[1..];
        DedupKeepsTexts(t, cs[1..], c);
        var d :| d in Dedup(t, cs[1..]) && TextOf(t, d) == TextOf(t, c);
        assert d in Dedup(t, cs);
      }
    } else {
      assert c in Dedup(t, cs);
    }
  }

  /** The first candidate is the object at the last marker behind the last cut that
      has one to offer. */
  lemma TriedFirst(t: string, cut: nat, marker: nat, c: Slice)
    requires Found(t, cut, marker, c)
    requires forall cut': nat, marker': nat, c' :: Found(t, cut', marker', c') ==>
      cut' < cut || (cut' == cut && marker' <= marker)
    ensures JsonCandidates(t) != [] && JsonCandidates(t)[0] == c
  {
    hide RealCut, Dedup, TextOf, LeadingObject, JsonCandidates, IsObjectAt, QuotesAll, RealMarker;
    var cuts, keys, cs := CandidatesExact(t);
    assert Listed(keys, cs, Key(cut, marker), c);
    var i :| 0 <= i < |keys| && keys[i] == Key(cut, marker) && cs[i] == c;
    assert Found(t, keys[0].cut, keys[0].marker, cs[0]);
    assert i == 0;
    var whole := LeadingObject(t, 0);
    DedupHead(t, cs + if whole.Some? then [whole.value] else []);
  }
}
