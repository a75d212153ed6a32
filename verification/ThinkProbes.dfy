/** Every other chunk boundary shows: for each of them there is a continuation on
    which the filter and a single pass differ (thinking.rs). */
module ThinkProbes {
  import opened Text
  import opened ThinkTags
  import opened ThinkScan
  import opened ThinkCuts

  // ---- The amount of text put out ----

  function Volume(p: seq<Piece>): nat {
    if p == [] then 0 else (if p[0].Plain? then 1 else 0) + Volume(p[1..])
  }

  lemma {:induction false} VolumeConcat(p: seq<Piece>, q: seq<Piece>)
    ensures Volume(p + q) == Volume(p) + Volume(q)
  {
    if p == [] {
      assert p + q == q;
    } else {
      assert (p + q)[0] == p[0] && (p + q)[1..] == p[1..] + q;
      VolumeConcat(p[1..], q);
    }
  }

  lemma {:induction false} VolumeOfPlains(s: string, t: bool)
    ensures Volume(Plains(s, t)) == |s|
  {
    if s != "" {
      assert Plains(s, t)[1..] == Plains(s[1..], t);
      VolumeOfPlains(s[1..], t);
    }
  }

  lemma {:induction false} VolumeIsOutput(p: seq<Piece>)
    ensures Volume(p) == |Side(p, false)| + |Side(p, true)|
  {
    if p != [] { VolumeIsOutput(p[1..]); }
  }

  lemma WholeTagHasNoVolume(t: string, d: nat)
    requires ParseTag(t).Found? && ParseTag(t).len == |t| && Bytes(t) <= CAP
    requires ParseTag(t).kind == Close ==> d > 0
    ensures Volume(Final(t, d)) == 0
  {
    hide ParseTag, Held, Final, Bytes;
    assert t[..|t|] == t && t[|t|..] == "";
    FinalTake(t, ParseTag(t).kind, |t|, d);
    TagHasNoVolume(t, ParseTag(t).kind, NextDepth(d, ParseTag(t).kind));
  }

  lemma TagHasNoVolume(t: string, k: TagKind, d: nat)
    ensures Volume([Tag(t, k)] + Final("", d)) == 0
  {
    FinalEmpty(d);
    var p := [Tag(t, k)];
    assert p + [] == p && p[1..] == [];
  }

  lemma NameOf(s: string, n: nat, e: nat)
    requires s != "" && n == NameStart(s) && n <= e <= |s|
    requires forall i :: n <= i < e ==> IsAsciiAlpha(s[i])
    requires e < |s| ==> !IsAsciiAlpha(s[e])
    ensures NameEnd(s) == e
  {
    var r := s[n..e];
    AlphaRunConcat(r, s[e..]);
    assert s[n..] == r + s[e..];
  }

  lemma OpenTagParses()
    ensures ParseTag("<think>") == Found(Open, 7)
  {
    hide Held;
    var o := "<think>";
    NameOf(o, 1, 6);
    assert Name(o) == "think" && o[6..] == ">";
  }

  lemma ThinkIsAName()
    ensures IsThinkName("think")
  {}

  lemma SlashThenGt()
    ensures Attributes("/>", Unquoted, false) == Found(SelfClosing, 2)
  {
    assert "/>"[1..] == ">";
    assert Attributes(">", Unquoted, true) == Found(SelfClosing, 1);
  }

  lemma SelfClosingTagParses()
    ensures ParseTag("<think/>") == Found(SelfClosing, 8)
  {
    hide Held, NameEnd, IsThinkName, Attributes;
    var f := "<think/>";
    NameOf(f, 1, 6);
    assert Name(f) == "think" && f[6..] == "/>";
    ThinkIsAName();
    SlashThenGt();
  }

  lemma CloseTagParses()
    ensures ParseTag("</think>") == Found(Close, 8)
  {
    hide Held;
    var c := "</think>";
    NameOf(c, 2, 7);
    assert IsThinkName("think") && IsCloseShape(c);
    assert Name(c) == "think" && c[7..] == ">" && c[7] == '>';
    assert SpaceRun(c[7..]) == 0;
  }

  lemma ShortTag(t: string, d: nat)
    requires ParseTag(t).Found? && ParseTag(t).len == |t| <= CAP
    requires forall i :: 0 <= i < |t| ==> t[i] as int < 0x80
    requires ParseTag(t).kind == Close ==> d > 0
    ensures Volume(Final(t, d)) == 0
  {
    hide ParseTag, Final;
    AsciiBytes(t);
    WholeTagHasNoVolume(t, d);
  }

  lemma ShortTags(d: nat)
    ensures Volume(Final("<think>", d)) == 0
    ensures Volume(Final("<think/>", d)) == 0
    ensures d > 0 ==> Volume(Final("</think>", d)) == 0
  {
    hide ParseTag, Final;
    OpenTagParses();
    SelfClosingTagParses();
    CloseTagParses();
    ShortTag("<think>", d);
    ShortTag("<think/>", d);
    if d > 0 { ShortTag("</think>", d); }
  }

  lemma {:induction false} AsciiBytes(s: string)
    requires forall i :: 0 <= i < |s| ==> s[i] as int < 0x80
    ensures Bytes(s) == |s|
  {
    if s != "" { AsciiBytes(s[1..]); }
  }

  lemma FoundHasGt(s: string)
    requires ParseTag(s).Found?
    ensures HasGt(s, Unquoted)
  {
    var e := NameEnd(s);
    if IsCloseShape(s) {
      var w := SpaceRun(s[e..]);
      ThinkNameSpells(Name(s));
      forall i | 0 <= i < e + w ensures s[i] != '>' && !IsQuote(s[i]) {
        if e <= i { assert IsAsciiWhitespace(s[e..][i - e]); }
        else if 2 <= i { assert IsAsciiAlpha(Name(s)[i - 2]); }
      }
      NoGtInLetters(s, e + w);
    } else {
      OpenHeadHasNoGt(s);
      AttributesFindGt(s[e..], Unquoted, false);
    }
  }

  /** A continuation of an unfinished opening tag over the cap that one pass
      reads as text and the emptied filter reads as a tag. */
  function OverflowProbe(s: string): string {
    if QuoteAfter(s, Unquoted).Unquoted? then "\"<think>" else "<think>"
  }

  /** What follows the name of an unfinished opening tag does not matter to the
      partial expression once there are two characters of it. */
  lemma LongOpenPartialGrows(s: string, y: string, k: nat)
    requires OpenPartialAt(s, k) && 1 + k + 1 < |s|
    ensures OpenPartialAt(s + y, k)
  {
    hide FoldsTo;
    var u := s + y;
    assert u[0] == s[0];
    forall i | 0 <= i < k ensures FoldsTo(u[1 + i], THINKING[i]) { assert u[1 + i] == s[1 + i]; }
    assert SpellsPrefix(u, 1, k);
    assert u[1 + k..][0] == s[1 + k] == s[1 + k..][0];
  }

  lemma OverflowIsHeld(s: string, d: nat)
    requires s != "" && Held(s) && OpenPartial(s) && Bytes(s) > CAP
    ensures LookAt(s + OverflowProbe(s), d) == Hold
  {
    hide ParseTag, OpenPartialAt, ClosePartial, HasGt, OverflowProbe, Bytes, QuoteAfter;
    var y := OverflowProbe(s);
    var u := s + y;
    OverflowQuote(s);
    QuoteAfterConcat(s, y, Unquoted);
    var k: nat :| k <= 8 && OpenPartialAt(s, k);
    ShortBytes(s);
    LongOpenPartialGrows(s, y, k);
    HeldStart(s);
    assert u[0] == s[0];
    NoGtNoTag(u);
  }

  lemma HeldStart(s: string)
    requires Held(s)
    ensures s != "" && s[0] == '<'
  {
    hide HasGt;
  }

  lemma NoGtNoTag(u: string)
    requires !HasGt(u, Unquoted)
    ensures ParseTag(u).NoTag?
  {
    hide ParseTag, HasGt;
    if ParseTag(u).Found? { FoundHasGt(u); }
  }

  lemma OverflowDiffers(s: string, d: nat)
    requires s != "" && Held(s) && OpenPartial(s) && Bytes(s) > CAP
    ensures Volume(Final(s + OverflowProbe(s), d)) == |s| + |OverflowProbe(s)|
    ensures Volume(Final(OverflowProbe(s), d)) < |OverflowProbe(s)|
  {
    hide Final, Scan, Held, OpenPartial, LookAt, Bytes, QuoteAfter;
    var y := OverflowProbe(s);
    var u := s + y;
    OverflowIsHeld(s, d);
    FinalHold(u, d);
    VolumeOfPlains(u, d > 0);
    ShortTags(d);
    if QuoteAfter(s, Unquoted).Unquoted? {
      assert y == "\"" + "<think>";
      PlainRun("\"", "<think>", d);
      VolumeConcat(Plains("\"", d > 0), Final("<think>", d));
      VolumeOfPlains("\"", d > 0);
    }
  }

  lemma ShortBytes(s: string)
    ensures Bytes(s) <= 4 * |s|
  {
    if s != "" { ShortBytes(s[1..]); }
  }

  lemma OverflowQuote(s: string)
    ensures !HasGt(OverflowProbe(s), QuoteAfter(s, Unquoted))
  {
    var q := QuoteAfter(s, Unquoted);
    GoodQuoteAfter(s, Unquoted);
    var y := OverflowProbe(s);
    if q.Unquoted? {
      assert y[1..] == "<think>";
      QuotedTagHasNoGt(Inside('"'));
    } else {
      QuotedTagHasNoGt(q);
    }
  }

  lemma QuotedTagHasNoGt(q: Quote)
    requires q.Inside? && IsQuote(q.mark)
    ensures !HasGt("<think>", q)
  {
    var t := "<think>";
    QuotedHasNoGt(t, q);
  }

  lemma {:induction false} QuotedHasNoGt(t: string, q: Quote)
    requires q.Inside? && q.mark !in t
    ensures !HasGt(t, q)
  {
    if t != "" { QuotedHasNoGt(t[1..], q); }
  }

  lemma Cancel(p: seq<Piece>, f: seq<Piece>, s: Scanned, y: string)
    requires Volume(f) != Volume(s.pieces + Final(s.rest + y, s.depth))
    ensures Volume(p + f) != Volume(Before(p, s).pieces + Final(s.rest + y, s.depth))
  {
    hide Final, Volume;
    var g := Final(s.rest + y, s.depth);
    VolumeConcat(p, f);
    VolumeConcat(p, s.pieces + g);
    assert (p + s.pieces) + g == p + (s.pieces + g);
  }

  lemma LoneCloseIsNotSlashOpen()
    ensures !SlashOpen("</")
  {}

  /** What the two-chunk stream `x`, `y` puts out, starting at depth `d`. */
  function CutOutput(x: string, y: string, d: nat): FilterOut {
    var s := Scan(x, d);
    Output(s.pieces + Final(s.rest + y, s.depth))
  }

  // ---- Text that is never more than what went in ----

  lemma {:induction false} VolumeOfPieces(p: seq<Piece>, d: nat)
    requires Routed(p, d)
    ensures Volume(p) <= |Flatten(p)|
    ensures Volume(p) == |Flatten(p)| ==> AllPlain(p)
  {
    hide ParseTag, Bytes;
    if p != [] {
      var e := if p[0].Tag? then NextDepth(d, p[0].kind) else d;
      VolumeOfPieces(p[1..], e);
      if p[0].Tag? { TagIsLong(p[0].text, p[0].kind); }
    }
  }

  lemma TagIsLong(t: string, k: TagKind)
    requires ParseTag(t) == Found(k, |t|)
    ensures |t| >= 7
  {
    hide ParseTag;
  }

  lemma VolumeIsBounded(z: string, d: nat)
    ensures Volume(Final(z, d)) <= |z|
  {
    hide Final, Routed, Flatten, Volume;
    FinalPartitions(z, d);
    VolumeOfPieces(Final(z, d), d);
  }

  lemma EmitVolume(u: string, n: nat, d: nat)
    requires u != "" && LookAt(u, d) == Emit(n)
    ensures Volume(Final(u, d)) == n + Volume(Final(u[n..], d))
  {
    hide LookAt, Final, Volume;
    FinalEmit(u, n, d);
    VolumeConcat(Plains(u[..n], d > 0), Final(u[n..], d));
    VolumeOfPlains(u[..n], d > 0);
  }

  lemma TakeVolume(u: string, k: TagKind, n: nat, d: nat)
    requires u != "" && LookAt(u, d) == Take(k, n)
    ensures Volume(Final(u, d)) == Volume(Final(u[n..], NextDepth(d, k))) <= |u| - n
  {
    hide LookAt, Final;
    FinalTake(u, k, n, d);
    var p := [Tag(u[..n], k)];
    VolumeConcat(p, Final(u[n..], NextDepth(d, k)));
    assert p[1..] == [] && Volume(p) == 0;
    VolumeIsBounded(u[n..], NextDepth(d, k));
  }

  lemma HoldVolume(u: string, d: nat)
    requires u != "" && LookAt(u, d) == Hold
    ensures Volume(Final(u, d)) == |u|
  {
    hide LookAt, Final, Volume;
    FinalHold(u, d);
    VolumeOfPlains(u, d > 0);
  }

  lemma PlainRunVolume(s: string, y: string, d: nat)
    requires NoLess(s)
    ensures Volume(Final(s + y, d)) == |s| + Volume(Final(y, d))
  {
    hide Final, Volume;
    PlainRun(s, y, d);
    VolumeConcat(Plains(s, d > 0), Final(y, d));
    VolumeOfPlains(s, d > 0);
  }

  // ---- The probes ----

  const TAG := "<think>"

  function Other(m: char): char { if m == '"' then '\'' else '"' }

  /** Has a `>` outside quotes for everything that is not in quote state `q`, and
      none for what is, which it leaves in that state. */
  function Guard(q: Quote): string {
    match q
    case Unquoted => ['"', '>', '"', '\'', '>', '\'']
    case Inside(m) => ['>', Other(m), '>']
  }

  /** Finishes a tag in state `q`, but only after a think tag inside its quotes. */
  function Shout(q: Quote): string {
    match q
    case Unquoted => "\"" + (TAG + "\">")
    case Inside(m) => TAG + [m, '>']
  }

  function Loud(q: Quote): string { Guard(q) + Shout(q) }

  lemma GtStep(s: string, q: Quote)
    requires s != ""
    ensures HasGt(s, q) <==> (q.Unquoted? && s[0] == '>') || HasGt(s[1..], NextQuote(q, s[0]))
    ensures QuoteAfter(s, q) == QuoteAfter(s[1..], NextQuote(q, s[0]))
  {}

  lemma GtEnd(q: Quote)
    ensures !HasGt("", q) && QuoteAfter("", q) == q
  {}

  /** Three characters, one after the other. */
  lemma GtThree(a: char, b: char, c: char, q: Quote)
    ensures var r := NextQuote(q, a);
            var t := NextQuote(r, b);
            && (HasGt([a, b, c], q) <==>
                  (q.Unquoted? && a == '>') || (r.Unquoted? && b == '>') || (t.Unquoted? && c == '>'))
            && QuoteAfter([a, b, c], q) == NextQuote(t, c)
  {
    hide HasGt, QuoteAfter;
    var r := NextQuote(q, a);
    var t := NextQuote(r, b);
    var s := [a, b, c];
    GtStep(s, q);
    assert s[1..] == [b, c];
    GtStep([b, c], r);
    assert [b, c][1..] == [c];
    GtStep([c], t);
    assert [c][1..] == [];
    GtEnd(NextQuote(t, c));
  }

  lemma GtTwo(b: char, c: char, q: Quote)
    ensures var r := NextQuote(q, b);
            HasGt([b, c], q) <==> (q.Unquoted? && b == '>') || (r.Unquoted? && c == '>')
  {
    hide HasGt, QuoteAfter;
    var r := NextQuote(q, b);
    GtStep([b, c], q);
    assert [b, c][1..] == [c];
    GtStep([c], r);
    assert [c][1..] == [];
    GtEnd(NextQuote(r, c));
  }

  lemma GuardHides(q: Quote)
    requires GoodQuote(q)
    ensures !HasGt(Guard(q), q) && QuoteAfter(Guard(q), q) == q
  {
    hide HasGt, QuoteAfter;
    match q
    case Unquoted =>
      assert Guard(q) == ['"', '>', '"'] + ['\'', '>', '\''];
      GtThree('"', '>', '"', q);
      GtThree('\'', '>', '\'', q);
      QuoteAfterConcat(['"', '>', '"'], ['\'', '>', '\''], q);
    case Inside(m) =>
      GtThree('>', Other(m), '>', q);
  }

  lemma GuardShows(q: Quote, o: Quote)
    requires GoodQuote(q) && GoodQuote(o) && o != q
    ensures HasGt(Guard(q), o)
  {
    hide HasGt, QuoteAfter;
    match q
    case Unquoted =>
      assert Guard(q) == ['"', '>', '"'] + ['\'', '>', '\''];
      GtThree('"', '>', '"', o);
      GtThree('\'', '>', '\'', o);
      QuoteAfterConcat(['"', '>', '"'], ['\'', '>', '\''], o);
    case Inside(m) =>
      GtThree('>', Other(m), '>', o);
  }

  lemma TagHasNoQuotes(q: Quote)
    requires GoodQuote(q) && q.Inside?
    ensures !HasGt(TAG, q) && QuoteAfter(TAG, q) == q
  {
    QuotedTagHasNoGt(q);
    assert q.mark !in TAG;
    QuotedStays(TAG, q);
  }

  lemma {:induction false} QuotedStays(t: string, q: Quote)
    requires q.Inside? && q.mark !in t
    ensures QuoteAfter(t, q) == q
  {
    if t != "" { QuotedStays(t[1..], q); }
  }

  lemma CloserEnds(q: Quote)
    requires GoodQuote(q)
    ensures HasGt(Closer(q), q) && FirstGt(Closer(q), q) == |Closer(q)| - 1
  {
    match q
    case Unquoted =>
    case Inside(m) => assert Closer(q)[1..] == ">";
  }

  lemma ShoutEnds(q: Quote)
    requires GoodQuote(q)
    ensures HasGt(Shout(q), q) && FirstGt(Shout(q), q) == |Shout(q)| - 1
  {
    hide HasGt, FirstGt, QuoteAfter;
    match q
    case Unquoted =>
      var o := Inside('"');
      TagHasNoQuotes(o);
      CloserEnds(o);
      FirstGtConcat(TAG, "\">", o);
      OneQuote(TAG + "\">", o);
    case Inside(m) =>
      TagHasNoQuotes(q);
      CloserEnds(q);
      FirstGtConcat(TAG, [m, '>'], q);
  }

  lemma OneQuote(t: string, o: Quote)
    requires o == Inside('"') && HasGt(t, o)
    ensures HasGt("\"" + t, Unquoted) && FirstGt("\"" + t, Unquoted) == 1 + FirstGt(t, o)
  {
    var s := "\"" + t;
    assert s[0] == '"' && s[1..] == t;
  }

  lemma LoudEnds(q: Quote)
    requires GoodQuote(q)
    ensures HasGt(Loud(q), q) && FirstGt(Loud(q), q) == |Loud(q)| - 1
  {
    hide HasGt, FirstGt, QuoteAfter, Guard, Shout;
    GuardHides(q);
    ShoutEnds(q);
    FirstGtConcat(Guard(q), Shout(q), q);
  }

  /** Who is in another quote state sees no end in the closing text of `q`. */
  lemma CloserHides(q: Quote, o: Quote)
    requires GoodQuote(q) && GoodQuote(o) && o != q
    ensures !HasGt(Closer(q) + TAG, o)
  {
    hide HasGt, QuoteAfter;
    var c := Closer(q);
    QuoteAfterConcat(c, TAG, o);
    match q
    case Unquoted =>
      GtStep(">", o);
      assert ">"[1..] == "";
      GtEnd(o);
      TagHasNoQuotes(o);
    case Inside(m) =>
      GtTwo(m, '>', o);
      var r := NextQuote(o, m);
      GtStep(c, o);
      assert c[1..] == [ '>' ];
      GtStep(c[1..], r);
      assert c[1..][1..] == [];
      GtEnd(r);
      TagHasNoQuotes(r);
  }

  lemma TagIsTaken(x: string, d: nat)
    ensures Volume(Final(TAG + x, d)) <= |x|
  {
    hide ParseTag, Held, Final, Volume;
    var u := TAG + x;
    OpenTagParses();
    ParseStable(TAG, x);
    assert u[..7] == TAG && u[7..] == x && u[0] == '<';
    AsciiBytes(TAG);
    TakeVolume(u, Open, 7, d);
  }

  lemma ShoutIsHeard(q: Quote, d: nat)
    ensures Volume(Final(Shout(q), d)) < |Shout(q)|
  {
    hide Final, Volume;
    match q
    case Unquoted =>
      TagIsTaken("\">", d);
      PlainRunVolume("\"", TAG + "\">", d);
    case Inside(m) =>
      TagIsTaken([m, '>'], d);
  }

  lemma GuardIsPlain(q: Quote, i: nat)
    requires i <= |Guard(q)|
    ensures NoLess(Guard(q)[i..])
  {}

  lemma LoudIsHeard(q: Quote, i: nat, d: nat)
    requires i <= |Guard(q)|
    ensures Loud(q)[i..] == Guard(q)[i..] + Shout(q)
    ensures Volume(Final(Loud(q)[i..], d)) < |Loud(q)| - i
  {
    hide Final, Volume, Guard, Shout;
    GuardIsPlain(q, i);
    PlainRunVolume(Guard(q)[i..], Shout(q), d);
    ShoutIsHeard(q, d);
    assert Loud(q)[i..] == Guard(q)[i..] + Shout(q);
  }

  // ---- A continuation that tells `z` apart from plain text ----

  /** One of three texts, each of which finishes a tag in state `q`, makes `z` and
      what follows it yield an amount of text other than their own. */
  predicate Tells(z: string, q: Quote, d: nat) {
    || Volume(Final(z + Closer(q), d)) != |z| + |Closer(q)|
    || Volume(Final(z + (Closer(q) + TAG), d)) != |z| + |Closer(q)|
    || Volume(Final(z + Loud(q), d)) != |z| + |Loud(q)|
  }

  /** Past a first character that is plain whichever of them follows. */
  lemma TellsLater(z: string, q: Quote, d: nat)
    requires z != "" && Tells(z[1..], q, d)
    requires LookAt(z + Closer(q), d) == Emit(1) && LookAt(z + (Closer(q) + TAG), d) == Emit(1)
    requires LookAt(z + Loud(q), d) == Emit(1)
    ensures Tells(z, q, d)
  {
    hide LookAt, Final, Volume, Closer, Loud;
    OneLater(z, Closer(q), d);
    OneLater(z, Closer(q) + TAG, d);
    OneLater(z, Loud(q), d);
  }

  lemma OneLater(z: string, y: string, d: nat)
    requires z != "" && LookAt(z + y, d) == Emit(1)
    ensures Volume(Final(z + y, d)) == 1 + Volume(Final(z[1..] + y, d))
  {
    hide LookAt, Final, Volume;
    assert (z + y)[1..] == z[1..] + y;
    EmitVolume(z + y, 1, d);
  }

  /** An unfinished tag that white space follows: it is held back as long as there
      is no `>` outside quotes. */
  predicate Sticky(s: string) {
    exists k: nat :: k <= 8 && OpenPartialAt(s, k) && 1 + k < |s| && IsWhitespace(s[1 + k])
  }

  lemma StickyGrows(s: string, y: string)
    requires Sticky(s)
    ensures OpenPartial(s + y) && |s| >= 3 && s[0] == '<' && s[1] != '<' && s[2] != '<'
  {
    hide IsWhitespace;
    var k: nat :| k <= 8 && OpenPartialAt(s, k) && 1 + k < |s| && IsWhitespace(s[1 + k]);
    StickyStart(s, k);
    var u := s + y;
    assert u[0] == s[0];
    forall i | 0 <= i < k ensures FoldsTo(u[1 + i], THINKING[i]) { assert u[1 + i] == s[1 + i]; }
    assert SpellsPrefix(u, 1, k);
    assert u[1 + k..][0] == s[1 + k];
    assert OpenPartialAt(u, k);
  }

  lemma StickyStart(s: string, k: nat)
    requires OpenPartialAt(s, k) && 1 + k < |s| && IsWhitespace(s[1 + k])
    ensures |s| >= 3 && s[0] == '<' && s[1] != '<' && s[2] != '<'
  {
    assert FoldsTo(s[1 + 0], THINKING[0]);
    if k >= 2 { assert FoldsTo(s[1 + 1], THINKING[1]); }
  }

  /** Held back in another quote state: the closing text and a tag stay text. */
  lemma StickyTells(z: string, q: Quote, d: nat)
    requires GoodQuote(q) && Sticky(z) && !HasGt(z, Unquoted) && EndQuote(z) != q
    ensures Volume(Final(z + (Closer(q) + TAG), d)) == |z| + |Closer(q)| + |TAG|
  {
    hide Sticky, HasGt, ParseTag, OpenPartial, ClosePartial, Final, Volume, Closer, QuoteAfter;
    var y := Closer(q) + TAG;
    GoodQuoteAfter(z, Unquoted);
    CloserHides(q, EndQuote(z));
    QuoteAfterConcat(z, y, Unquoted);
    StickyGrows(z, y);
    NoGtNoTag(z + y);
    assert (z + y)[0] == '<';
    HoldVolume(z + y, d);
  }

  /** A finished tag is a tag or, if it passes the cap, text; then what follows
      counts. */
  lemma RealOpenVolume(z: string, y: string, d: nat)
    requires RealOpen(z) && HasGt(y, EndQuote(z))
    ensures var m := FirstGt(y, EndQuote(z)) + 1;
            var t := Bytes(z + y[..m]);
            exists e: nat :: Volume(Final(z + y, d)) == (if t > CAP then |z| + m else 0) + Volume(Final(y[m..], e))
  {
    hide ParseTag, RealOpen, HasGt, Final, Volume, Held, Bytes, QuoteAfter;
    var m := FirstGt(y, EndQuote(z)) + 1;
    var u, n := z + y, |z| + m;
    RealOpenGrows(z, y);
    RealOpenStart(z);
    assert u[..n] == z + y[..m] && u[n..] == y[m..] && u[0] == z[0];
    match LookAt(u, d)
    case Emit(_) => EmitVolume(u, n, d);
    case Take(k, _) => TakeVolume(u, k, n, d);
  }

  /** An unfinished opening tag tells, unless it ends in state `q` and is overlong. */
  lemma RealOpenTells(z: string, q: Quote, d: nat)
    requires GoodQuote(q) && RealOpen(z) && !(EndQuote(z) == q && Overlong(z))
    ensures Tells(z, q, d)
  {
    hide RealOpen, HasGt, Final, Volume, Held, Bytes, QuoteAfter, Closer, Loud, FirstGt, Guard;
    if EndQuote(z) == q {
      var c := Closer(q);
      CloserEnds(q);
      RealOpenVolume(z, c, d);
      assert c[..|c|] == c && c[|c|..] == "";
      BytesConcat(z, c);
      var e: nat :| Volume(Final(z + c, d)) == 0 + Volume(Final("", e));
      VolumeIsBounded("", e);
      RealOpenStart(z);
    } else {
      GuardTells(z, q, d);
    }
  }

  lemma GuardTells(z: string, q: Quote, d: nat)
    requires GoodQuote(q) && RealOpen(z) && EndQuote(z) != q
    ensures Volume(Final(z + Loud(q), d)) < |z| + |Loud(q)|
  {
    hide RealOpen, HasGt, Final, Volume, Held, Bytes, QuoteAfter, FirstGt, Guard, Shout;
    var o := EndQuote(z);
    GoodQuoteAfter(z, Unquoted);
    GuardShows(q, o);
    FirstGtStable(Guard(q), Shout(q), o);
    RealOpenVolume(z, Loud(q), d);
    var m := FirstGt(Loud(q), o) + 1;
    var t := Bytes(z + Loud(q)[..m]);
    var e: nat :| Volume(Final(z + Loud(q), d)) == (if t > CAP then |z| + m else 0) + Volume(Final(Loud(q)[m..], e));
    LoudIsHeard(q, m, e);
  }

  // ---- Heads that only a `>` could complete ----

  /** How each probe begins and ends. */
  predicate ProbeText(y: string) { y != "" && (y[0] == '>' || IsQuote(y[0])) && y[|y| - 1] == '>' }

  lemma ProbesAreProbes(q: Quote)
    requires GoodQuote(q)
    ensures ProbeText(Closer(q)) && ProbeText(Closer(q) + TAG) && ProbeText(Loud(q))
    ensures Closer(q)[0] == '>' ==> Closer(q) == ">"
  {}

  /** `z` cannot be held back once such a text follows. */
  lemma NotHeldBy(z: string, y: string)
    requires z != "" && z[0] == '<' && ProbeText(y) && !(Sticky(z) && !HasGt(z, Unquoted))
    ensures !Held(z + y)
  {
    hide HasGt, IsWhitespace;
    var u, p := z + y, |z|;
    QuoteAfterConcat(z, y, Unquoted);
    assert u[p] == y[0];
    MarksAreNotBlank(y[0]);
    forall k: nat | k <= 8 && OpenPartialAt(u, k) ensures Sticky(z) { OpenPartialStops(z, y, k); }
    forall k: nat | k <= 8 ensures !ClosePartialAt(u, k) { ClosePartialStops(u, p, k); }
  }

  lemma MarksAreNotBlank(c: char)
    requires c == '>' || IsQuote(c)
    ensures !IsWhitespace(c) && !IsAsciiAlpha(c) && !IsAsciiWhitespace(c) && c != '/'
    ensures forall i :: 0 <= i < |THINKING| ==> !FoldsTo(c, THINKING[i])
  {}

  lemma LettersEndBefore(u: string, p: nat, k: nat)
    requires 1 <= p < |u| && (u[p] == '>' || IsQuote(u[p])) && SpellsPrefix(u, 1, k)
    ensures 1 + k <= p
  {
    hide FoldsTo;
    MarksAreNotBlank(u[p]);
    var i := p - 1;
    if i < |THINKING| { assert !FoldsTo(u[1 + i], THINKING[i]); }
  }

  lemma OpenPartialStops(z: string, y: string, k: nat)
    requires z != "" && ProbeText(y) && k <= 8 && OpenPartialAt(z + y, k)
    ensures Sticky(z)
  {
    hide IsWhitespace, FoldsTo;
    var u, p := z + y, |z|;
    assert u[p] == y[0];
    MarksAreNotBlank(y[0]);
    LettersEndBefore(u, p, k);
    var t := u[1 + k..];
    assert t != "" && t[0] == u[1 + k] && t[|t| - 1] == '>';
    assert IsWhitespace(u[1 + k]);
    assert 1 + k < p && z[1 + k] == u[1 + k] && z[0] == u[0];
    forall i | 0 <= i < k ensures FoldsTo(z[1 + i], THINKING[i]) { assert u[1 + i] == z[1 + i]; }
    assert SpellsPrefix(z, 1, k);
    assert z[1 + k..][0] == z[1 + k];
    assert OpenPartialAt(z, k);
  }

  lemma ClosePartialStops(u: string, p: nat, k: nat)
    requires 1 <= p < |u| && (u[p] == '>' || IsQuote(u[p])) && k <= 8
    ensures !ClosePartialAt(u, k)
  {
    hide IsWhitespace, FoldsTo;
    MarksAreNotBlank(u[p]);
    if |u| >= 2 + k {
      if 2 <= p < 2 + k {
        assert !FoldsTo(u[2 + (p - 2)], THINKING[p - 2]);
      } else if 2 + k <= p {
        assert u[2 + k..][p - 2 - k] == u[p];
      }
    }
  }

  /** If it becomes a tag, then with the first character of the text. */
  lemma GrowsByGt(z: string, y: string)
    requires z != "" && z[0] == '<' && ParseTag(z).NoTag? && !RealOpen(z) && ProbeText(y)
    ensures ParseTag(z + y).Found? ==> y[0] == '>' && ParseTag(z + y).len == |z| + 1
  {
    hide IsThinkName, HasGt, Attributes, SpaceRun, AlphaRun;
    var u, p := z + y, |z|;
    assert u[p] == y[0];
    MarksAreNotBlank(y[0]);
    if ParseTag(u).Found? {
      GrownTagEndsLater(z, y);
      var e := NameEnd(u);
      NameStopsHere(z, y);
      if IsCloseShape(u) {
        var w := SpaceRun(u[e..]);
        assert u[e..][p - e] == u[p];
      } else {
        OpenGrowsByGt(z, y);
      }
    }
  }

  lemma NameStopsHere(z: string, y: string)
    requires z != "" && z[0] == '<' && ProbeText(y) && IsThinkName(Name(z + y))
    ensures NameEnd(z + y) <= |z| && |z| >= 2
  {
    hide IsThinkName, AlphaRun;
    var u, p := z + y, |z|;
    assert u[p] == y[0];
    MarksAreNotBlank(y[0]);
    ThinkNameSpells(Name(u));
    var n, e := NameStart(u), NameEnd(u);
    assert p == 1 ==> !IsCloseShape(u);
    assert forall i :: n <= i < e ==> Name(u)[i - n] == u[i] && IsAsciiAlpha(u[i]);
  }

  lemma OpenGrowsByGt(z: string, y: string)
    requires |z| >= 2 && z[0] == '<' && ParseTag(z).NoTag? && !RealOpen(z) && ProbeText(y)
    requires ParseTag(z + y).Found? && !IsCloseShape(z + y) && NameEnd(z + y) <= |z|
    ensures y[0] == '>' && ParseTag(z + y).len == |z| + 1
  {
    hide IsThinkName, HasGt, AlphaRun;
    var u, p := z + y, |z|;
    assert u[p] == y[0] && u[p..] == y;
    MarksAreNotBlank(y[0]);
    NameConcat(z, y);
    var e := NameEnd(u);
    assert e == p by {
      if e < p {
        assert u[e] == z[e];
        AttributesFindGt(z[e..], Unquoted, false);
        OpenHeadHasNoGt(z);
      }
    }
  }

  /** What the head of `z` looks like before such a text. */
  lemma OtherLooks(z: string, y: string, d: nat)
    requires z != "" && z[0] == '<' && ParseTag(z).NoTag? && !RealOpen(z) && ProbeText(y)
    requires !(Sticky(z) && !HasGt(z, Unquoted))
    ensures LookAt(z + y, d) == Emit(1) ||
            (&& y[0] == '>' && ParseTag(z + y).Found? && ParseTag(z + y).len == |z| + 1
             && (Bytes(z) + 1 <= CAP ==> LookAt(z + y, d).Take?)
             && (LookAt(z + y, d).Take? || LookAt(z + y, d).Emit?) && LookAt(z + y, d).n == |z| + 1)
  {
    hide ParseTag, RealOpen, Sticky, HasGt, Held;
    var u := z + y;
    assert u[0] == z[0];
    NotHeldBy(z, y);
    GrowsByGt(z, y);
    if ParseTag(u).Found? {
      assert u[..|z| + 1] == z + ">";
      BytesConcat(z, ">");
      assert Bytes(">") == 1 by { assert ">"[1..] == ""; }
    }
  }

  lemma OtherLater(z: string, q: Quote, d: nat)
    requires z != "" && z[0] == '<' && ParseTag(z).NoTag? && !RealOpen(z) && GoodQuote(q)
    requires !(Sticky(z) && !HasGt(z, Unquoted)) && Bytes(z) + 1 <= CAP && Tells(z[1..], q, d)
    ensures Tells(z, q, d)
  {
    hide LookAt, ParseTag, RealOpen, Sticky, HasGt, Final, Volume, Closer, Loud, Bytes;
    var c := Closer(q);
    ProbesAreProbes(q);
    OtherLooks(z, c, d);
    OtherLooks(z, c + TAG, d);
    OtherLooks(z, Loud(q), d);
    if LookAt(z + c, d).Take? {
      TakeVolume(z + c, LookAt(z + c, d).kind, |z| + 1, d);
    } else if LookAt(z + Loud(q), d).Take? {
      TakeVolume(z + Loud(q), LookAt(z + Loud(q), d).kind, |z| + 1, d);
    } else {
      TagNeedsNoMore(z, c, d);
      TellsLater(z, q, d);
    }
  }

  /** A tag finished by the first character needs nothing after it. */
  lemma TagNeedsNoMore(z: string, c: string, d: nat)
    requires z != "" && ProbeText(c) && (c[0] == '>' ==> c == ">")
    requires LookAt(z + c, d) == Emit(1)
    requires LookAt(z + (c + TAG), d) == Emit(1) ||
             (&& c[0] == '>' && ParseTag(z + (c + TAG)).Found? && ParseTag(z + (c + TAG)).len == |z| + 1
              && LookAt(z + (c + TAG), d).Take?)
    ensures LookAt(z + (c + TAG), d) == Emit(1)
  {
    hide ParseTag, LookAt;
    if LookAt(z + (c + TAG), d).Take? { SameHead(z, c, d); }
  }

  lemma SameHead(z: string, c: string, d: nat)
    requires z != "" && |c| == 1
    requires ParseTag(z + (c + TAG)).Found? && ParseTag(z + (c + TAG)).len == |z| + 1
    requires LookAt(z + (c + TAG), d).Take?
    ensures LookAt(z + c, d).Take?
  {
    hide ParseTag, Held, Bytes;
    var u, v := z + (c + TAG), z + c;
    assert u[..|z| + 1] == v && v[..|z| + 1] == v && u[0] == v[0];
    TagStandsAlone(u);
  }

  // ---- Every text tells, unless an overlong tag covers it ----

  lemma PlainLater(z: string, q: Quote, d: nat)
    requires z != "" && z[0] != '<' && Tells(z[1..], q, d)
    ensures Tells(z, q, d)
  {
    hide Final, Volume, Closer, Loud, ParseTag, Held;
    assert (z + Closer(q))[0] == z[0] && (z + (Closer(q) + TAG))[0] == z[0] && (z + Loud(q))[0] == z[0];
    TellsLater(z, q, d);
  }

  lemma TagTells(z: string, q: Quote, d: nat)
    requires ParseTag(z).Found? && Bytes(z) <= CAP && (Tells(z[1..], q, d) || LookAt(z, d).Take?)
    ensures Tells(z, q, d)
  {
    hide Final, Volume, Closer, Loud, ParseTag, Held, Missed;
    var n := ParseTag(z).len;
    BytesConcat(z[..n], z[n..]);
    assert z[..n] + z[n..] == z;
    ShortIsNoTag(z);
    LookIsStable(z, Closer(q), d);
    LookIsStable(z, Closer(q) + TAG, d);
    LookIsStable(z, Loud(q), d);
    if LookAt(z, d).Take? {
      TakeVolume(z + Closer(q), LookAt(z, d).kind, n, d);
    } else {
      TellsLater(z, q, d);
    }
  }

  lemma ShortIsNoTag(z: string)
    requires ParseTag(z).Found?
    ensures |z| >= 7
  {
    hide ParseTag;
  }

  /** A tag that cannot be one, held back in state `q`: past its `<` whatever ends it. */
  lemma StickyLater(z: string, q: Quote, d: nat)
    requires GoodQuote(q) && Sticky(z) && !HasGt(z, Unquoted) && EndQuote(z) == q && !RealOpen(z)
    requires Tells(z[1..], q, d)
    ensures Tells(z, q, d)
  {
    hide LookAt, Sticky, HasGt, Final, Volume, Closer, Loud, QuoteAfter, RealOpen, FirstGt;
    CloserEnds(q);
    FirstGtStable(Closer(q), TAG, q);
    LoudEnds(q);
    StickyLooks(z, Closer(q), d);
    StickyLooks(z, Closer(q) + TAG, d);
    StickyLooks(z, Loud(q), d);
    StickyGrows(z, "");
    TellsLater(z, q, d);
  }

  lemma StickyLooks(z: string, y: string, d: nat)
    requires Sticky(z) && !HasGt(z, Unquoted) && HasGt(y, EndQuote(z)) && !RealOpen(z)
    ensures LookAt(z + y, d) == Emit(1)
  {
    hide Sticky, HasGt, QuoteAfter, RealOpen, ParseTag;
    StickyGrows(z, y);
    QuoteAfterConcat(z, y, Unquoted);
    StickyIsNoTag(z, y);
    assert (z + y)[0] == z[0];
  }

  lemma StickyIsNoTag(z: string, y: string)
    requires Sticky(z) && !HasGt(z, Unquoted) && !RealOpen(z)
    ensures ParseTag(z + y).NoTag?
  {
    hide IsThinkName, HasGt, AlphaRun, Attributes;
    var k: nat :| k <= 8 && OpenPartialAt(z, k) && 1 + k < |z| && IsWhitespace(z[1 + k]);
    assert FoldsTo(z[1 + 0], THINKING[0]);
    assert !IsCloseShape(z) && !IsAsciiAlpha(z[1 + k]);
    var e := NameEnd(z);
    assert z[1..][k] == z[1 + k];
    assert e <= 1 + k;
    NameConcat(z, y);
    assert (z + y)[e] == z[e];
  }

  lemma {:induction false} TextTells(z: string, q: Quote, d: nat)
    requires GoodQuote(q) && Bytes(z) + 2 <= CAP
    ensures Tells(z, q, d)
    decreases |z|
  {
    hide ParseTag, Tells, RealOpen, Sticky, HasGt, LookAt, QuoteAfter;
    if z == "" {
      NothingTells(q, d);
    } else {
      TextTells(z[1..], q, d);
      if z[0] != '<' {
        PlainLater(z, q, d);
      } else if ParseTag(z).Found? {
        TagTells(z, q, d);
      } else if RealOpen(z) {
        GoodQuoteAfter(z, Unquoted);
        CloserBytes(EndQuote(z));
        RealOpenTells(z, q, d);
      } else if Sticky(z) && !HasGt(z, Unquoted) {
        if EndQuote(z) == q { StickyLater(z, q, d); } else { StickyShows(z, q, d); }
      } else {
        OtherLater(z, q, d);
      }
    }
  }

  lemma StickyShows(z: string, q: Quote, d: nat)
    requires GoodQuote(q) && Sticky(z) && !HasGt(z, Unquoted) && EndQuote(z) != q
    ensures Tells(z, q, d)
  {
    hide Sticky, HasGt, QuoteAfter, Final, Volume, Closer;
    StickyTells(z, q, d);
  }

  lemma NothingTells(q: Quote, d: nat)
    ensures Tells("", q, d)
  {
    hide Final, Volume;
    LoudIsHeard(q, 0, d);
    assert Loud(q)[0..] == Loud(q) && "" + Loud(q) == Loud(q);
  }

  /** What is held back and longer than any name is a closing tag with white
      space, or sticky. */
  lemma LongHeld(r: string)
    requires Held(r) && |r| > 10
    ensures Sticky(r) || ClosePartial(r)
  {
    hide HasGt, IsWhitespace;
    if !ClosePartial(r) {
      var k: nat :| k <= 8 && OpenPartialAt(r, k);
      assert r[1 + k..][0] == r[1 + k];
    }
  }

  lemma CloseTells(r: string, q: Quote, d: nat)
    requires GoodQuote(q) && Held(r) && ClosePartial(r)
    ensures Volume(Final(r + Loud(q), d)) < |r| + |Loud(q)|
  {
    hide ParseTag, HasGt, Final, Volume, Bytes, Loud, LookAt;
    var u := r + Loud(q);
    CloseIsClose(r);
    ClosePartialIsPlain(r);
    NoGtNoTag(r);
    ProbesAreProbes(q);
    OtherLooks(r, Loud(q), d);
    LoudIsHeard(q, 0, d);
    assert Loud(q)[0..] == Loud(q);
    if LookAt(u, d) == Emit(1) {
      OneLater(r, Loud(q), d);
      PlainRunVolume(r[1..], Loud(q), d);
    } else if LookAt(u, d).Take? {
      TakeVolume(u, LookAt(u, d).kind, |r| + 1, d);
    } else {
      EmitVolume(u, |r| + 1, d);
      assert u[|r| + 1..] == Loud(q)[1..];
      GuardIsNotEmpty(q);
      LoudIsHeard(q, 1, d);
    }
  }

  lemma GuardIsNotEmpty(q: Quote)
    ensures 1 <= |Guard(q)|
  {}

  lemma CloseIsClose(r: string)
    requires ClosePartial(r)
    ensures |r| >= 2 && r[0] == '<' && r[1] == '/' && !RealOpen(r) && !Sticky(r)
  {
    hide HasGt;
    forall k: nat ensures !OpenPartialAt(r, k) { assert !FoldsTo(r[1 + 0], THINKING[0]); }
  }

  /** Whatever the filter holds tells, unless it is an overlong tag in state `q`. */
  lemma HeldTells(r: string, q: Quote, d: nat)
    requires GoodQuote(q) && Held(r) && Bytes(r) <= CAP
    requires !(RealOpen(r) && EndQuote(r) == q && Overlong(r))
    ensures Tells(r, q, d)
  {
    hide ParseTag, Tells, RealOpen, Sticky, HasGt, LookAt, QuoteAfter, Bytes, OpenPartial, ClosePartial, Overlong;
    if Bytes(r) + 2 <= CAP {
      TextTells(r, q, d);
    } else if RealOpen(r) {
      RealOpenTells(r, q, d);
    } else {
      ShortBytes(r);
      LongHeld(r);
      if Sticky(r) {
        if EndQuote(r) == q { LongStickyTells(r, q, d); } else { StickyShows(r, q, d); }
      } else {
        CloseShows(r, q, d);
      }
    }
  }

  lemma CloseShows(r: string, q: Quote, d: nat)
    requires GoodQuote(q) && Held(r) && ClosePartial(r)
    ensures Tells(r, q, d)
  {
    hide Held, Final, Volume, Loud, ClosePartial;
    CloseTells(r, q, d);
  }

  lemma LongStickyTells(r: string, q: Quote, d: nat)
    requires GoodQuote(q) && Held(r) && Bytes(r) <= CAP && Sticky(r) && EndQuote(r) == q && !RealOpen(r)
    ensures Tells(r, q, d)
  {
    hide ParseTag, Tells, RealOpen, Sticky, HasGt, LookAt, QuoteAfter, OpenPartial, ClosePartial;
    StickyGrows(r, "");
    var z := r[3..];
    assert r == r[..3] + z;
    BytesConcat(r[..3], z);
    TextTells(z, q, d);
    assert r[1..][1..] == r[2..] && r[2..][1..] == z;
    PlainLater(r[2..], q, d);
    PlainLater(r[1..], q, d);
    StickyLater(r, q, d);
  }

  // ---- Every hazard shows ----

  /** What the filter puts out of `x` and then of `y`. */
  function CutPieces(x: string, y: string, d: nat): seq<Piece> {
    var s := Scan(x, d);
    s.pieces + Final(s.rest + y, s.depth)
  }

  /** `y` does not finish an overlong tag held at the end of `x`. */
  predicate Blind(x: string, d: nat, y: string) {
    var s := Scan(x, d);
    AllPlain(s.pieces) && RealOpen(s.rest) && Overlong(s.rest) ==> !HasGt(y, EndQuote(s.rest))
  }

  lemma CutVolume(x: string, y: string, d: nat)
    requires x != "" && LookAt(x, d) == Emit(1)
    ensures var t := Scan(x[1..], d);
            && Scan(x, d) == Before(Plains(x[..1], d > 0), t)
            && Volume(CutPieces(x, y, d)) == 1 + Volume(t.pieces) + Volume(Final(t.rest + y, t.depth))
  {
    hide LookAt, Scan, Final, Volume;
    ScanEmit(x, 1, d);
    var t := Scan(x[1..], d);
    var p, f := Plains(x[..1], d > 0), Final(t.rest + y, t.depth);
    VolumeConcat(p, t.pieces);
    VolumeConcat(p + t.pieces, f);
    VolumeOfPlains(x[..1], d > 0);
  }

  lemma OverlongVolume(s: string, y: string, d: nat)
    requires RealOpen(s) && Overlong(s) && HasGt(y, EndQuote(s))
    ensures var m := FirstGt(y, EndQuote(s)) + 1;
            Volume(Final(s + y, d)) == |s| + m + Volume(Final(y[m..], d))
  {
    hide RealOpen, Overlong, HasGt, Final, Volume, EndQuote, FirstGt;
    var m := FirstGt(y, EndQuote(s)) + 1;
    OverlongIsText(s, y, d);
    VolumeConcat(Plains(s + y[..m], d > 0), Final(y[m..], d));
    VolumeOfPlains(s + y[..m], d > 0);
  }

  /** What one pass makes of an overlong tag and each of the three texts. */
  lemma OverlongWhole(s: string, q: Quote, d: nat)
    requires RealOpen(s) && Overlong(s) && EndQuote(s) == q && GoodQuote(q)
    ensures Volume(Final(s + Closer(q), d)) == |s| + |Closer(q)|
    ensures Volume(Final(s + (Closer(q) + TAG), d)) == |s| + |Closer(q)|
    ensures Volume(Final(s + Loud(q), d)) == |s| + |Loud(q)|
  {
    hide RealOpen, Overlong, HasGt, Final, Volume, EndQuote, Closer, Loud, FirstGt;
    var c, l := Closer(q), Loud(q);
    CloserEnds(q);
    FirstGtStable(c, TAG, q);
    LoudEnds(q);
    OverlongVolume(s, c, d);
    OverlongVolume(s, c + TAG, d);
    OverlongVolume(s, l, d);
    VolumeIsBounded("", d);
    assert c[|c|..] == "" && l[|l|..] == "" && (c + TAG)[|c|..] == TAG + "";
    TagIsTaken("", d);
  }

  lemma PrefixPlain(x: string, t: Scanned, d: nat)
    ensures AllPlain(Before(Plains(x, d > 0), t).pieces) ==> AllPlain(t.pieces)
  {
    var p := Plains(x, d > 0);
    assert forall i :: 0 <= i < |t.pieces| ==> (p + t.pieces)[|p| + i] == t.pieces[i];
  }

  /** An overlong tag that was passed over, and is not shadowed. */
  lemma OverlongShows(s: string, d: nat) returns (y: string)
    requires s != "" && LookAt(s, d) == Emit(1) && SlashOpen(s) && Overlong(s) && !Shadowed(s, d)
    ensures Volume(Final(s + y, d)) != Volume(CutPieces(s, y, d))
    ensures Blind(s, d, y)
  {
    hide LookAt, SlashOpen, RealOpen, Overlong, EndQuote, Scan, Final, Volume, Held, HasGt, AllPlain,
         CutPieces, Closer, Loud, Tells, Bytes;
    var q := EndQuote(s);
    var t := Scan(s[1..], d);
    SlashOpenIsReal(s);
    EndQuoteIsGood(s);
    OverlongWhole(s, q, d);
    ScanPartitions(s[1..], d);
    PrefixPlain(s[..1], t, d);
    if !AllPlain(t.pieces) {
      y := Closer(q);
      CutVolume(s, y, d);
      VolumeOfPieces(t.pieces, d);
      VolumeIsBounded(t.rest + y, t.depth);
      assert |Flatten(t.pieces)| + |t.rest| == |s| - 1;
    } else {
      PlainScan(s[1..], d);
      VolumeOfPlains(Flatten(t.pieces), d > 0);
      assert |Flatten(t.pieces)| + |t.rest| == |s| - 1;
      if RealOpen(t.rest) && Overlong(t.rest) {
        y := Closer(q) + TAG;
        CutVolume(s, y, d);
        RealOpenStart(t.rest);
        ShadowMissed(s, t.rest, d);
      } else {
        RestTells(t.rest, q, d);
        y := TellingText(t.rest, q, d);
        CutVolume(s, y, d);
      }
    }
  }

  lemma EndQuoteIsGood(s: string)
    ensures GoodQuote(EndQuote(s))
  {
    GoodQuoteAfter(s, Unquoted);
  }

  lemma ShadowMissed(s: string, r: string, d: nat)
    requires r != "" && Held(r) && RealOpen(r) && Overlong(r) && EndQuote(r) != EndQuote(s)
    ensures var y := Closer(EndQuote(s)) + TAG;
            !HasGt(y, EndQuote(r)) && Volume(Final(r + y, d)) == |r| + |y|
  {
    hide OpenPartial, ClosePartial, HasGt, Final, Volume, QuoteAfter, Closer, Sticky, RealOpen, Bytes;
    EndQuoteIsGood(s);
    EndQuoteIsGood(r);
    CloserBytes(EndQuote(r));
    CloserHides(EndQuote(s), EndQuote(r));
    ShortBytes(r);
    LongHeld(r);
    if ClosePartial(r) { CloseIsClose(r); }
    StickyTells(r, EndQuote(s), d);
  }

  lemma RestTells(r: string, q: Quote, d: nat)
    requires GoodQuote(q) && (r == "" || Held(r)) && Bytes(r) <= CAP && !(RealOpen(r) && Overlong(r))
    ensures Tells(r, q, d)
  {
    hide Tells, Held, RealOpen, Overlong;
    if r == "" { NothingTells(q, d); } else { HeldTells(r, q, d); }
  }

  lemma TellingText(r: string, q: Quote, d: nat) returns (y: string)
    requires Tells(r, q, d)
    ensures y == Closer(q) || y == Closer(q) + TAG || y == Loud(q)
    ensures y == Closer(q) + TAG ==> Volume(Final(r + y, d)) != |r| + |Closer(q)|
    ensures y != Closer(q) + TAG ==> Volume(Final(r + y, d)) != |r| + |y|
  {
    hide Final, Volume, Closer, Loud;
    if Volume(Final(r + (Closer(q) + TAG), d)) != |r| + |Closer(q)| {
      y := Closer(q) + TAG;
    } else if Volume(Final(r + Closer(q), d)) != |r| + |Closer(q)| {
      y := Closer(q);
    } else {
      y := Loud(q);
      LoudIsLonger(q);
    }
  }

  lemma LoudIsLonger(q: Quote)
    ensures Loud(q) != Closer(q) + TAG
  {
    assert |Loud(q)| > |Closer(q) + TAG|;
  }

  /** A `<` passed over that more input makes a tag within the cap. */
  lemma MissedShows(x: string, d: nat) returns (y: string)
    requires x != "" && LookAt(x, d) == Emit(1) && Missed(x, d) && !(SlashOpen(x) && Overlong(x))
    ensures Volume(Final(x + y, d)) != Volume(CutPieces(x, y, d))
    ensures Blind(x, d, y)
  {
    hide LookAt, SlashOpen, Scan, Final, Volume, Held, HasGt, CutPieces, Closer, Overlong, QuoteAfter,
         RealOpen, AllPlain;
    ShortTags(d);
    if x == "<" {
      y := "think/>";
      assert x + y == "<think/>";
    } else if x == "</" {
      LoneCloseIsNotSlashOpen();
      y := "think>";
      assert x + y == "</think>";
    } else {
      y := Closer(EndQuote(x));
      SlashOpenCompletes(x, d);
    }
    CutVolume(x, y, d);
    MissedIsShort(x, d);
    ShortRest(x, y, d);
  }

  lemma SlashOpenCompletes(s: string, d: nat)
    requires SlashOpen(s) && !Overlong(s)
    ensures Volume(Final(s + Closer(EndQuote(s)), d)) == 0
  {
    hide ParseTag, SlashOpen, Bytes, Closer, QuoteAfter, Final, Volume, RealOpen, HasGt;
    var c := Closer(EndQuote(s));
    SlashOpenIsReal(s);
    EndQuoteIsGood(s);
    CloserEnds(EndQuote(s));
    RealOpenGrows(s, c);
    BytesConcat(s, c);
    WholeTagHasNoVolume(s + c, d);
  }

  lemma ShortRest(x: string, y: string, d: nat)
    requires x != "" && LookAt(x, d) == Emit(1) && Bytes(x) + 1 <= CAP
    ensures Blind(x, d, y)
  {
    hide LookAt, Scan, HasGt, RealOpen, AllPlain, EndQuote, Closer, Bytes, Held;
    ScanEmit(x, 1, d);
    var t := Scan(x[1..], d);
    RestIsShorter(x, d);
    EndQuoteIsGood(t.rest);
    CloserBytes(EndQuote(t.rest));
  }

  lemma RestIsShorter(x: string, d: nat)
    requires x != ""
    ensures Bytes(Scan(x[1..], d).rest) < Bytes(x)
  {
    hide Scan, Held, Routed;
    ScanPartitions(x[1..], d);
    var t := Scan(x[1..], d);
    BytesConcat(Flatten(t.pieces), t.rest);
  }

  lemma MissedIsShort(x: string, d: nat)
    requires Missed(x, d) && !(SlashOpen(x) && Overlong(x))
    ensures Bytes(x) + 1 <= CAP
  {
    hide SlashOpen, Closer, EndQuote, Bytes;
    ShortBytes(x);
    EndQuoteIsGood(x);
    CloserBytes(EndQuote(x));
    CloserIsNotEmpty(EndQuote(x));
  }

  lemma CloserIsNotEmpty(q: Quote)
    ensures |Closer(q)| >= 1
  {}

  lemma BlindBefore(p: seq<Piece>, x: string, n: nat, d: nat, e: nat, y: string)
    requires n <= |x| && Scan(x, d) == Before(p, Scan(x[n..], e)) && Blind(x[n..], e, y)
    ensures Blind(x, d, y)
  {
    hide Scan, RealOpen, Overlong, HasGt, EndQuote;
    var t := Scan(x[n..], e);
    assert forall i :: 0 <= i < |t.pieces| ==> (p + t.pieces)[|p| + i] == t.pieces[i];
  }

  /** Passing over a shadowed tag: a text that does not finish what is held does
      not finish the tag either. */
  lemma ShadowIsBlind(x: string, y: string, d: nat)
    requires x != "" && LookAt(x, d) == Emit(1) && SlashOpen(x) && Shadowed(x, d) && Blind(x[1..], d, y)
    ensures Final(x + y, d) == Plains(x[..1], d > 0) + Final(x[1..] + y, d)
  {
    hide ParseTag, Final, SlashOpen, RealOpen, Overlong, EndQuote, Scan, HasGt, Held, AllPlain;
    var u := x + y;
    assert u[..1] == x[..1] && u[1..] == x[1..] + y && u[0] == x[0];
    SlashOpenIsReal(x);
    RealOpenGrows(x, y);
    SlashOpenIsNotHeld(x, y);
    assert LookAt(u, d) == Emit(1);
    FinalEmit(u, 1, d);
  }

  /** At an unsafe cut some next chunk makes the stream and the single pass put out
      different amounts of text. */
  lemma {:induction false} HazardShows(x: string, d: nat) returns (y: string)
    requires !SafeCut(x, d)
    ensures Volume(Final(x + y, d)) != Volume(CutPieces(x, y, d))
    ensures Blind(x, d, y)
    decreases |x|
  {
    hide ParseTag, Held, Final, Missed, OpenPartial, Volume, OverflowProbe, Shadowed, SlashOpen, Overlong, Blind, Scan;
    match LookAt(x, d)
    case Emit(n) =>
      if Hazardous(x, d) {
        if SlashOpen(x) && Overlong(x) {
          y := OverlongShows(x, d);
        } else {
          y := MissedShows(x, d);
        }
      } else {
        y := HazardShows(x[n..], d);
        ScanEmit(x, n, d);
        BlindBefore(Plains(x[..n], d > 0), x, n, d, d, y);
        if ParseTag(x).NoTag? && Missed(x, d) {
          ShadowIsBlind(x, y, d);
        } else {
          HeadIsStable(x, y, d);
        }
        Cancel(Plains(x[..n], d > 0), Final(x[n..] + y, d), Scan(x[n..], d), y);
      }
    case Take(k, n) =>
      y := HazardShows(x[n..], NextDepth(d, k));
      ScanTake(x, k, n, d);
      BlindBefore([Tag(x[..n], k)], x, n, d, NextDepth(d, k), y);
      HeadIsStable(x, y, d);
      Cancel([Tag(x[..n], k)], Final(x[n..] + y, NextDepth(d, k)), Scan(x[n..], NextDepth(d, k)), y);
    case Hold =>
      y := OverflowProbe(x);
      OverflowShows(x, d);
  }

  lemma OverflowShows(x: string, d: nat)
    requires x != "" && LookAt(x, d) == Hold && Bytes(x) > CAP && OpenPartial(x)
    ensures var y := OverflowProbe(x);
            Volume(Final(x + y, d)) != Volume(CutPieces(x, y, d)) && Blind(x, d, y)
  {
    hide ParseTag, Final, OpenPartial, Volume, OverflowProbe, HasGt;
    var y := OverflowProbe(x);
    OverflowDiffers(x, d);
    var p := Plains(x, d > 0);
    assert Scan(x, d) == Scanned(p, "", d);
    assert "" + y == y;
    VolumeConcat(p, Final(y, d));
    VolumeOfPlains(x, d > 0);
  }

  /** A cut after `x` is harmless for every continuation if and only if it is safe. */
  lemma SafeCutIsExact(x: string, d: nat)
    ensures SafeCut(x, d) <==> forall y :: CutOutput(x, y, d) == Output(Final(x + y, d))
  {
    hide Scan, Final, FirstHazard;
    if SafeCut(x, d) {
      forall y ensures CutOutput(x, y, d) == Output(Final(x + y, d)) {
        SafeCutSuffices(x, y, d);
      }
    } else {
      var y := HazardShows(x, d);
      VolumeIsOutput(Final(x + y, d));
      VolumeIsOutput(CutPieces(x, y, d));
      assert CutOutput(x, y, d) != Output(Final(x + y, d));
    }
  }
}
