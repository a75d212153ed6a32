/** Which chunk boundaries leave the result of the think filter alone
    (thinking.rs). */
module ThinkCuts {
  import opened Text
  import opened ThinkTags
  import opened ThinkScan

  // ---- Unfinished opening tags ----

  /** An opening tag that lacks nothing but its `>`. */
  predicate RealOpen(s: string) {
    && s != "" && s[0] == '<' && !IsCloseShape(s)
    && IsThinkName(Name(s)) && NameEnd(s) < |s| && OpenBoundary(s[NameEnd(s)])
    && !HasGt(s, Unquoted)
  }

  /** The quote state at the end of `s`. */
  function EndQuote(s: string): Quote { QuoteAfter(s, Unquoted) }

  /** The shortest text that ends an unfinished opening tag in quote state `q`. */
  function Closer(q: Quote): string {
    match q
    case Unquoted => ">"
    case Inside(m) => [m, '>']
  }

  predicate GoodQuote(q: Quote) { q.Inside? ==> IsQuote(q.mark) }

  /** However it is finished, the tag passes the cap. */
  predicate Overlong(s: string) { Bytes(s) + Bytes(Closer(EndQuote(s))) > CAP }

  /** Where the first `>` outside quotes is. */
  function FirstGt(s: string, q: Quote): (n: nat)
    requires HasGt(s, q)
    ensures n < |s| && (q.Inside? ==> n >= 1)
  {
    if q.Unquoted? && s[0] == '>' then 0 else 1 + FirstGt(s[1..], NextQuote(q, s[0]))
  }

  lemma {:induction false} AttributesEnd(s: string, q: Quote, slash: bool)
    requires HasGt(s, q)
    ensures Attributes(s, q, slash).Found? && Attributes(s, q, slash).len == FirstGt(s, q) + 1
  {
    if !(q.Unquoted? && s[0] == '>') {
      AttributesEnd(s[1..], NextQuote(q, s[0]), slash);
      AttributesEnd(s[1..], NextQuote(q, s[0]), s[0] == '/');
      AttributesEnd(s[1..], NextQuote(q, s[0]), false);
    }
  }

  lemma {:induction false} FirstGtConcat(s: string, t: string, q: Quote)
    requires !HasGt(s, q) && HasGt(t, QuoteAfter(s, q))
    ensures HasGt(s + t, q) && FirstGt(s + t, q) == |s| + FirstGt(t, QuoteAfter(s, q))
  {
    QuoteAfterConcat(s, t, q);
    if s == "" {
      assert s + t == t;
    } else {
      assert (s + t)[0] == s[0] && (s + t)[1..] == s[1..] + t;
      FirstGtConcat(s[1..], t, NextQuote(q, s[0]));
    }
  }

  /** A `>` found in `s` is the first one whatever follows. */
  lemma {:induction false} FirstGtStable(s: string, t: string, q: Quote)
    requires HasGt(s, q)
    ensures HasGt(s + t, q) && FirstGt(s + t, q) == FirstGt(s, q)
  {
    QuoteAfterConcat(s, t, q);
    assert (s + t)[0] == s[0] && (s + t)[1..] == s[1..] + t;
    if !(q.Unquoted? && s[0] == '>') { FirstGtStable(s[1..], t, NextQuote(q, s[0])); }
  }

  /** An unfinished opening tag becomes a tag with the first `>` outside its quotes. */
  lemma RealOpenGrows(s: string, y: string)
    requires RealOpen(s)
    ensures ParseTag(s + y).Found? <==> HasGt(y, EndQuote(s))
    ensures HasGt(y, EndQuote(s)) ==>
              ParseTag(s + y).kind != Close && ParseTag(s + y).len == |s| + FirstGt(y, EndQuote(s)) + 1
  {
    hide NameEnd, Name, IsThinkName, Attributes, HasGt, QuoteAfter;
    var u := s + y;
    var e := NameEnd(s);
    NameConcat(s, y);
    OpenHeadHasNoGt(s);
    assert u[e..] == s[e..] + y && u[e] == s[e] && u[0] == s[0];
    QuoteAfterConcat(s[e..], y, Unquoted);
    AttributesFindGt(u[e..], Unquoted, false);
    if HasGt(y, EndQuote(s)) {
      FirstGtConcat(s[e..], y, Unquoted);
      AttributesEnd(u[e..], Unquoted, false);
    }
  }

  lemma SlashOpenIsReal(s: string)
    requires SlashOpen(s)
    ensures RealOpen(s)
  {
    hide NameEnd, Name, IsThinkName, HasGt;
    OpenHeadHasNoGt(s);
  }

  /** The partial expressions never hold it back. */
  lemma SlashOpenIsNotHeld(s: string, y: string)
    requires SlashOpen(s)
    ensures !Held(s + y)
  {
    hide HasGt, IsThinkName;
    var u := s + y;
    var e := NameEnd(s);
    NameConcat(s, y);
    assert u[e] == '/' && u[1] == s[1];
    forall k: nat | k <= 8 ensures !OpenPartialAt(u, k) {
      SlashEndsPartial(u, k, e);
    }
    assert !ClosePartial(u);
  }

  lemma SlashEndsPartial(u: string, k: nat, e: nat)
    requires 1 <= e && e + 1 < |u| && u[e] == '/' && k <= 8
    requires forall i :: 1 <= i < e ==> IsAsciiAlpha(u[i])
    ensures !OpenPartialAt(u, k)
  {
    if e <= k {
      assert !FoldsTo(u[1 + (e - 1)], THINKING[e - 1]);
    } else {
      var t := u[1 + k..];
      assert t != "" && t[0] == u[1 + k];
      if 1 + k < e { assert IsAsciiAlpha(u[1 + k]); }
    }
  }

  lemma {:induction false} GoodQuoteAfter(s: string, q: Quote)
    requires GoodQuote(q)
    ensures GoodQuote(QuoteAfter(s, q))
  {
    if s != "" { GoodQuoteAfter(s[1..], NextQuote(q, s[0])); }
  }

  lemma CloserBytes(q: Quote)
    requires GoodQuote(q)
    ensures Bytes(Closer(q)) == |Closer(q)| <= 2
  {
    var c := Closer(q);
    assert Bytes(">") == 1 by { assert ">"[1..] == ""; }
    if q.Inside? { assert c[1..] == ">"; }
  }

  /** What finishes the tag has at least the bytes of the shortest such text. */
  lemma CompletionBytes(y: string, q: Quote)
    requires GoodQuote(q) && HasGt(y, q)
    ensures Bytes(Closer(q)) <= Bytes(y[..FirstGt(y, q) + 1])
  {
    CloserBytes(q);
  }

  /** So an overlong one, once finished, is text as a whole. */
  lemma OverlongIsText(s: string, y: string, d: nat)
    requires RealOpen(s) && Overlong(s) && HasGt(y, EndQuote(s))
    ensures var m := FirstGt(y, EndQuote(s)) + 1;
            Final(s + y, d) == Plains(s + y[..m], d > 0) + Final(y[m..], d)
  {
    hide ParseTag, RealOpen, HasGt, Final, Held, Bytes, QuoteAfter, Closer;
    var q := EndQuote(s);
    var u, m := s + y, FirstGt(y, q) + 1;
    GoodQuoteAfter(s, Unquoted);
    RealOpenGrows(s, y);
    CompletionBytes(y, q);
    var n := |s| + m;
    assert u[..n] == s + y[..m] && u[n..] == y[m..];
    BytesConcat(s, y[..m]);
    RealOpenStart(s);
    assert u[0] == s[0];
    assert LookAt(u, d) == Emit(n);
    FinalEmit(u, n, d);
  }

  lemma RealOpenStart(s: string)
    requires RealOpen(s)
    ensures s != "" && s[0] == '<'
  {}

  // ---- Hazards ----

  /** A `<` that was passed over although more input could make it a tag that
      matters at depth `d`. */
  predicate Missed(s: string, d: nat) {
    s == "<" || (s == "</" && d > 0) || SlashOpen(s)
  }

  predicate AllPlain(p: seq<Piece>) { forall i :: 0 <= i < |p| ==> p[i].Plain? }

  /** No tag was dropped from the rest of `s`, and what is held at its end is an
      unfinished opening tag that ends where `s` does and is overlong like it. */
  predicate Shadowed(s: string, d: nat)
    requires s != ""
  {
    var t := Scan(s[1..], d);
    AllPlain(t.pieces) && RealOpen(t.rest) && Overlong(t.rest) && EndQuote(t.rest) == EndQuote(s)
  }

  /** Passed over, and not without consequence. */
  predicate Hazardous(s: string, d: nat)
    requires s != ""
  {
    ParseTag(s).NoTag? && Missed(s, d) && !(SlashOpen(s) && Shadowed(s, d))
  }

  datatype Hazard = NoHazard | MissedAt(suffix: string) | OverflowAt(suffix: string)

  /** The first place where the outcome of scanning `x` depends on what follows
      `x`: a missed `<`, or an unfinished opening tag too long to be kept. */
  function FirstHazard(x: string, d: nat): (h: Hazard)
    decreases |x|
  {
    if x == "" then NoHazard
    else match LookAt(x, d)
      case Emit(n) => if Hazardous(x, d) then MissedAt(x) else FirstHazard(x[n..], d)
      case Take(k, n) => FirstHazard(x[n..], NextDepth(d, k))
      case Hold => if Bytes(x) > CAP && OpenPartial(x) then OverflowAt(x) else NoHazard
  }

  /** The text so far may be cut here. */
  predicate SafeCut(x: string, d: nat) { FirstHazard(x, d) == NoHazard }

  // ---- Cutting at a safe place ----

  /** Past a head that is neither held nor a hazard, `x + y` looks as `x` does. */
  lemma LookIsStable(x: string, y: string, d: nat)
    requires x != "" && x != "</" && !LookAt(x, d).Hold?
    requires LookAt(x, d).Emit? ==> !(ParseTag(x).NoTag? && Missed(x, d))
    ensures LookAt(x + y, d) == LookAt(x, d)
  {
    var u := x + y;
    assert u[0] == x[0];
    if ParseTag(x).Found? {
      ParseStable(x, y);
      assert u[..ParseTag(x).len] == x[..ParseTag(x).len];
    } else if x[0] == '<' {
      assert ParseTag(u).NoTag? by {
        if ParseTag(u).Found? {
          GrowingIsHeld(x, y);
          assert false;
        }
      }
      assert !Held(u) by {
        if Held(u) {
          HeldPrefix(x, y);
          assert false;
        }
      }
    }
  }

  lemma HeadIsStable(x: string, y: string, d: nat)
    requires x != "" && !LookAt(x, d).Hold?
    requires LookAt(x, d).Emit? ==> !(ParseTag(x).NoTag? && Missed(x, d))
    ensures var n := LookAt(x, d).n;
            match LookAt(x, d)
            case Emit(_) => Final(x + y, d) == Plains(x[..n], d > 0) + Final(x[n..] + y, d)
            case Take(k, _) =>
              Final(x + y, d) == [Tag(x[..n], k)] + Final(x[n..] + y, NextDepth(d, k))
  {
    hide LookAt, ParseTag, Final, Held;
    if x == "</" {
      LoneCloseHead(x, y, d);
    } else {
      LookIsStable(x, y, d);
      var n := LookAt(x, d).n;
      var u := x + y;
      assert u[..n] == x[..n] && u[n..] == x[n..] + y;
      match LookAt(x, d)
      case Emit(_) => FinalEmit(u, n, d);
      case Take(k, _) => FinalTake(u, k, n, d);
    }
  }

  lemma LoneCloseHead(x: string, y: string, d: nat)
    requires x == "</" && !LookAt(x, d).Hold?
    requires LookAt(x, d).Emit? ==> !(ParseTag(x).NoTag? && Missed(x, d))
    ensures d == 0 && LookAt(x, d) == Emit(1)
    ensures Final(x + y, d) == Plains(x[..1], d > 0) + Final(x[1..] + y, d)
  {
    assert x[..1] == "<" && x[1..] == "/";
    LoneCloseIsText(y);
  }

  lemma {:induction false} PlainPieces(p: seq<Piece>, d: nat)
    requires AllPlain(p) && Routed(p, d)
    ensures p == Plains(Flatten(p), d > 0) && DepthAfter(p, d) == d
  {
    hide ParseTag;
    if p != [] {
      PlainPieces(p[1..], d);
      assert Flatten(p) == [p[0].c] + Flatten(p[1..]);
      assert p == [p[0]] + p[1..];
    }
  }

  /** A scan that drops no tag splits its text in two. */
  lemma PlainScan(x: string, d: nat)
    requires AllPlain(Scan(x, d).pieces)
    ensures var s := Scan(x, d);
            var k := Flatten(s.pieces);
            x == k + s.rest && s.pieces == Plains(k, d > 0) && s.depth == d
  {
    hide Scan, Held, Routed, AllPlain;
    ScanPartitions(x, d);
    PlainPieces(Scan(x, d).pieces, d);
  }

  /** Over a shadowed tag the filter may pass, whatever follows: if the tag is
      ever finished it is text, and so is the one it holds. */
  lemma ShadowHead(x: string, y: string, d: nat)
    requires x != "" && LookAt(x, d) == Emit(1) && SlashOpen(x) && Shadowed(x, d)
    requires var t := Scan(x[1..], d); Final(x[1..] + y, d) == t.pieces + Final(t.rest + y, t.depth)
    ensures Final(x + y, d) == Plains(x[..1], d > 0) + Final(x[1..] + y, d)
  {
    hide ParseTag, Final, SlashOpen, RealOpen, Overlong, EndQuote, Scan, HasGt, Held, AllPlain;
    var u := x + y;
    assert u[..1] == x[..1] && u[1..] == x[1..] + y && u[0] == x[0];
    SlashOpenIsReal(x);
    RealOpenGrows(x, y);
    if ParseTag(u).NoTag? {
      SlashOpenIsNotHeld(x, y);
      assert LookAt(u, d) == Emit(1);
      FinalEmit(u, 1, d);
    } else {
      ShadowText(x, y, d);
    }
  }

  lemma ShadowText(x: string, y: string, d: nat)
    requires x != "" && RealOpen(x) && Shadowed(x, d) && HasGt(y, EndQuote(x))
    requires var t := Scan(x[1..], d); Final(x[1..] + y, d) == t.pieces + Final(t.rest + y, t.depth)
    ensures Final(x + y, d) == Plains(x[..1], d > 0) + Final(x[1..] + y, d)
  {
    hide ParseTag, Final, RealOpen, EndQuote, Scan, HasGt, Held, AllPlain, Overlong, Plains, FirstGt;
    var t := Scan(x[1..], d);
    PlainScan(x[1..], d);
    var k, r := Flatten(t.pieces), t.rest;
    var m := FirstGt(y, EndQuote(x)) + 1;
    ShadowIsOverlong(x, d);
    OverlongIsText(x, y, d);
    OverlongIsText(r, y, d);
    ShadowPieces(x, k, r, y[..m], Final(y[m..], d), d);
  }

  lemma ShadowPieces(x: string, k: string, r: string, y: string, f: seq<Piece>, d: nat)
    requires x != "" && x[1..] == k + r
    ensures Plains(x + y, d > 0) + f == Plains(x[..1], d > 0) + (Plains(k, d > 0) + (Plains(r + y, d > 0) + f))
  {
    hide Plains;
    PlainsConcat(k, r + y, d > 0);
    PlainsConcat(x[..1], k + (r + y), d > 0);
    assert x[..1] + (k + (r + y)) == x + y by { assert x == x[..1] + x[1..]; }
    var a, b, c := Plains(x[..1], d > 0), Plains(k, d > 0), Plains(r + y, d > 0);
    assert (a + (b + c)) + f == a + (b + (c + f));
  }

  lemma ShadowIsOverlong(x: string, d: nat)
    requires x != "" && Shadowed(x, d)
    ensures Overlong(x)
  {
    hide RealOpen, EndQuote, Scan, Held, AllPlain, Bytes, Closer;
    var t := Scan(x[1..], d);
    PlainScan(x[1..], d);
    var k := Flatten(t.pieces);
    assert x == (x[..1] + k) + t.rest;
    BytesConcat(x[..1] + k, t.rest);
  }

  /** Cutting at a safe place changes nothing, whatever comes next. */
  lemma {:induction false} SafeCutSuffices(x: string, y: string, d: nat)
    requires SafeCut(x, d)
    ensures var s := Scan(x, d);
            Final(x + y, d) == s.pieces + Final(s.rest + y, s.depth)
    decreases |x|
  {
    hide ParseTag, Held, Final, Missed, OpenPartial, SlashOpen, Shadowed;
    if x == "" {
      assert x + y == y;
    } else {
      match LookAt(x, d)
      case Emit(n) =>
        SafeCutSuffices(x[n..], y, d);
        if ParseTag(x).NoTag? && Missed(x, d) {
          ShadowHead(x, y, d);
        } else {
          HeadIsStable(x, y, d);
        }
      case Take(k, n) =>
        HeadIsStable(x, y, d);
        SafeCutSuffices(x[n..], y, NextDepth(d, k));
      case Hold =>
        if Bytes(x) > CAP {
          LongHoldIsText(x, y, d);
          assert "" + y == y;
        }
    }
  }

  /** Every chunk boundary, with what the filter holds at that point, is safe. */
  predicate SafeCuts(chunks: seq<string>, b: string, d: nat)
    decreases |chunks|
  {
    |chunks| <= 1 ||
    var x := b + chunks[0];
    var s := Scan(x, d);
    SafeCut(x, d) && SafeCuts(chunks[1..], s.rest, s.depth)
  }

  /** Chunk invariance: with safe cuts, streaming equals one pass over the whole text. */
  lemma {:induction false} ChunkInvariance(chunks: seq<string>, b: string, d: nat)
    requires SafeCuts(chunks, b, d)
    ensures Stream(chunks, b, d) == Final(b + Concat(chunks), d)
    decreases |chunks|
  {
    hide SafeCut, Scan, Final;
    if chunks == [] {
      assert b + Concat(chunks) == b;
    } else {
      var x := b + chunks[0];
      var s := Scan(x, d);
      assert b + Concat(chunks) == x + Concat(chunks[1..]);
      if |chunks| == 1 {
        assert Concat(chunks[1..]) == "" && x + "" == x;
        FinalAfterScan(x, d);
      } else {
        SafeCutSuffices(x, Concat(chunks[1..]), d);
        ChunkInvariance(chunks[1..], s.rest, s.depth);
      }
    }
  }
}
