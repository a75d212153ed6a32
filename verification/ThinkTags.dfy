/** Recognition of think tags: the tag parser, the quote-aware search for `>`,
    and the two partial-tag regular expressions (thinking.rs). */
module ThinkTags {
  import opened Text

  datatype TagKind = Open | Close | SelfClosing

  /** What the parser finds at the head of a string: nothing, or a tag of `len` characters. */
  datatype Parsed = NoTag | Found(kind: TagKind, len: nat)

  datatype Quote = Unquoted | Inside(mark: char)

  predicate IsQuote(c: char) { c == '"' || c == '\'' }

  function NextQuote(q: Quote, c: char): Quote {
    match q
    case Inside(m) => if c == m then Unquoted else q
    case Unquoted => if IsQuote(c) then Inside(c) else Unquoted
  }

  function QuoteAfter(s: string, q: Quote): Quote {
    if s == "" then q else QuoteAfter(s[1..], NextQuote(q, s[0]))
  }

  /** Whether `s`, entered with quote state `q`, has a `>` outside quotes. */
  predicate HasGt(s: string, q: Quote) {
    s != "" && ((q.Unquoted? && s[0] == '>') || HasGt(s[1..], NextQuote(q, s[0])))
  }

  /** Length of the longest prefix of ASCII letters. */
  function AlphaRun(s: string): (n: nat)
    ensures n <= |s|
    ensures forall i :: 0 <= i < n ==> IsAsciiAlpha(s[i])
    ensures n < |s| ==> !IsAsciiAlpha(s[n])
  {
    if s == "" || !IsAsciiAlpha(s[0]) then 0 else 1 + AlphaRun(s[1..])
  }

  /** Length of the longest prefix of ASCII white space. */
  function SpaceRun(s: string): (n: nat)
    ensures n <= |s|
    ensures forall i :: 0 <= i < n ==> IsAsciiWhitespace(s[i])
    ensures n < |s| ==> !IsAsciiWhitespace(s[n])
  {
    if s == "" || !IsAsciiWhitespace(s[0]) then 0 else 1 + SpaceRun(s[1..])
  }

  predicate IsThinkName(name: string) {
    EqIgnoreCase(name, "think") || EqIgnoreCase(name, "thinking")
  }

  predicate OpenBoundary(c: char) { c == '>' || c == '/' || IsAsciiWhitespace(c) }

  function Longer(p: Parsed, n: nat): Parsed {
    match p
    case NoTag => NoTag
    case Found(k, m) => Found(k, m + n)
  }

  /** The attribute part of an opening tag, up to the first `>` outside quotes.
      `slash` says whether the last character that was not white space was a `/`. */
  function Attributes(s: string, q: Quote, slash: bool): (r: Parsed)
    ensures r.Found? ==> 1 <= r.len <= |s| && r.kind != Close
  {
    if s == "" then NoTag
    else if q.Inside? then Longer(Attributes(s[1..], NextQuote(q, s[0]), slash), 1)
    else if IsQuote(s[0]) then Longer(Attributes(s[1..], Inside(s[0]), false), 1)
    else if s[0] == '>' then Found(if slash then SelfClosing else Open, 1)
    else if !IsAsciiWhitespace(s[0]) then Longer(Attributes(s[1..], Unquoted, s[0] == '/'), 1)
    else Longer(Attributes(s[1..], Unquoted, slash), 1)
  }

  predicate IsCloseShape(s: string) { |s| >= 2 && s[1] == '/' }

  function NameStart(s: string): (n: nat)
    requires s != ""
    ensures 1 <= n <= 2 && n <= |s|
  {
    if IsCloseShape(s) then 2 else 1
  }

  /** Where the tag name ends. */
  function NameEnd(s: string): (n: nat)
    requires s != ""
    ensures NameStart(s) <= n <= |s|
  {
    NameStart(s) + AlphaRun(s[NameStart(s)..])
  }

  function Name(s: string): string
    requires s != ""
  {
    s[NameStart(s)..NameEnd(s)]
  }

  /** The think tag that starts at the head of `s`, if there is one. */
  function ParseTag(s: string): (r: Parsed)
    ensures r.Found? ==> s != "" && s[0] == '<' && 7 <= r.len <= |s|
  {
    if s == "" || s[0] != '<' || !IsThinkName(Name(s)) then NoTag
    else
      var e := NameEnd(s);
      if IsCloseShape(s) then
        var w := SpaceRun(s[e..]);
        if e + w < |s| && s[e + w] == '>' then Found(Close, e + w + 1) else NoTag
      else if e == |s| || !OpenBoundary(s[e]) then NoTag
      else Longer(Attributes(s[e..], Unquoted, false), e)
  }

  const THINKING := "thinking"

  /** `(?i)` equality with a lower-case letter: simple case folding, under which
      the Kelvin sign is also a `k`. */
  predicate FoldsTo(c: char, letter: char) {
    Lower(c) == letter || (letter == 'k' && c as int == 0x212A)
  }

  /** `s[from..from+k]` spells the first `k` letters of "thinking", ignoring case. */
  predicate SpellsPrefix(s: string, from: nat, k: nat) {
    && 1 <= k <= 8 && from + k <= |s|
    && forall i :: 0 <= i < k ==> FoldsTo(s[from + i], THINKING[i])
  }

  predicate OpenTail(t: string) { t == "" || IsWhitespace(t[0]) || t == "/" }

  predicate OpenPartialAt(s: string, k: nat) {
    && s != "" && s[0] == '<'
    && SpellsPrefix(s, 1, k)
    && OpenTail(s[1 + k..])
  }

  predicate ClosePartialAt(s: string, k: nat) {
    && |s| >= 2 && s[0] == '<' && s[1] == '/'
    && SpellsPrefix(s, 2, k)
    && IsBlank(s[2 + k..])
  }

  /** The opening regular expression: `<`, a non-empty prefix of "thinking", then
      nothing, white space and anything, or a final `/`. */
  predicate OpenPartial(s: string) {
    exists k: nat :: k <= 8 && OpenPartialAt(s, k)
  }

  /** The closing regular expression: `</`, a non-empty prefix of "thinking", white space. */
  predicate ClosePartial(s: string) {
    exists k: nat :: k <= 8 && ClosePartialAt(s, k)
  }

  /** Whether `s` is held back until more input arrives. */
  predicate Held(s: string) {
    !HasGt(s, Unquoted) && (OpenPartial(s) || ClosePartial(s))
  }

  /** An unfinished opening tag with something after the `/` that follows its
      name: it can still become a tag, but the partial expressions reject it. */
  predicate SlashOpen(s: string) {
    && s != "" && s[0] == '<' && !IsCloseShape(s)
    && IsThinkName(Name(s))
    && NameEnd(s) + 1 < |s| && s[NameEnd(s)] == '/'
    && !HasGt(s[NameEnd(s)..], Unquoted)
  }

  // ---- Quotes and attributes under concatenation ----

  lemma {:induction false} QuoteAfterConcat(s: string, t: string, q: Quote)
    ensures QuoteAfter(s + t, q) == QuoteAfter(t, QuoteAfter(s, q))
    ensures HasGt(s + t, q) <==> HasGt(s, q) || HasGt(t, QuoteAfter(s, q))
  {
    if s == "" {
      assert s + t == t;
    } else {
      assert (s + t)[1..] == s[1..] + t;
      QuoteAfterConcat(s[1..], t, NextQuote(q, s[0]));
    }
  }

  lemma {:induction false} AttributesFindGt(s: string, q: Quote, slash: bool)
    ensures Attributes(s, q, slash).Found? <==> HasGt(s, q)
  {
    if s != "" {
      AttributesFindGt(s[1..], NextQuote(q, s[0]), slash);
      AttributesFindGt(s[1..], NextQuote(q, s[0]), s[0] == '/');
      AttributesFindGt(s[1..], NextQuote(q, s[0]), false);
    }
  }

  lemma AttributesStep(s: string, q: Quote, slash: bool)
    requires s != ""
    ensures Attributes(s, q, slash)
         == if q.Inside? then Longer(Attributes(s[1..], NextQuote(q, s[0]), slash), 1)
            else if IsQuote(s[0]) then Longer(Attributes(s[1..], Inside(s[0]), false), 1)
            else if s[0] == '>' then Found(if slash then SelfClosing else Open, 1)
            else Longer(Attributes(s[1..], Unquoted, if IsAsciiWhitespace(s[0]) then slash else s[0] == '/'), 1)
  {}

  lemma NoAttributes(s: string, q: Quote, slash: bool)
    requires s == ""
    ensures Attributes(s, q, slash) == NoTag
  {}

  /** A tag found in `s` is found, the same, in every extension of `s`. */
  lemma {:induction false} AttributesStable(s: string, t: string, q: Quote, slash: bool)
    requires Attributes(s, q, slash).Found?
    ensures Attributes(s + t, q, slash) == Attributes(s, q, slash)
  {
    assert (s + t)[0] == s[0] && (s + t)[1..] == s[1..] + t;
    if q.Inside? {
      AttributesStable(s[1..], t, NextQuote(q, s[0]), slash);
    } else if IsQuote(s[0]) {
      AttributesStable(s[1..], t, Inside(s[0]), false);
    } else if s[0] != '>' {
      AttributesStable(s[1..], t, Unquoted, if IsAsciiWhitespace(s[0]) then slash else s[0] == '/');
    }
  }

  /** An attribute part found in `s + t` but not in `s` ends inside `t`. */
  lemma {:induction false} AttributesGrow(s: string, t: string, q: Quote, slash: bool)
    requires !HasGt(s, q)
    ensures Attributes(s + t, q, slash).Found? ==> |s| < Attributes(s + t, q, slash).len
  {
    if s != "" {
      assert (s + t)[0] == s[0] && (s + t)[1..] == s[1..] + t;
      if q.Inside? {
        AttributesGrow(s[1..], t, NextQuote(q, s[0]), slash);
      } else if IsQuote(s[0]) {
        AttributesGrow(s[1..], t, Inside(s[0]), false);
      } else {
        AttributesGrow(s[1..], t, Unquoted, if IsAsciiWhitespace(s[0]) then slash else s[0] == '/');
      }
    }
  }

  // ---- Names under concatenation ----

  lemma {:induction false} AlphaRunConcat(s: string, t: string)
    ensures AlphaRun(s) < |s| ==> AlphaRun(s + t) == AlphaRun(s)
    ensures AlphaRun(s) == |s| ==> AlphaRun(s + t) == |s| + AlphaRun(t)
  {
    if s == "" {
      assert s + t == t;
    } else {
      assert (s + t)[0] == s[0] && (s + t)[1..] == s[1..] + t;
      AlphaRunConcat(s[1..], t);
    }
  }

  lemma {:induction false} SpaceRunConcat(s: string, t: string)
    ensures SpaceRun(s) < |s| ==> SpaceRun(s + t) == SpaceRun(s)
    ensures SpaceRun(s) == |s| ==> SpaceRun(s + t) == |s| + SpaceRun(t)
  {
    if s == "" {
      assert s + t == t;
    } else {
      assert (s + t)[0] == s[0] && (s + t)[1..] == s[1..] + t;
      SpaceRunConcat(s[1..], t);
    }
  }

  /** The shape of a string longer than `<` is that of its extensions, and its
      name is fixed once something follows it. */
  lemma NameConcat(s: string, t: string)
    requires |s| >= 2
    ensures IsCloseShape(s + t) == IsCloseShape(s) && NameStart(s + t) == NameStart(s)
    ensures NameEnd(s) < |s| ==> NameEnd(s + t) == NameEnd(s) && Name(s + t) == Name(s)
    ensures NameEnd(s) == |s| ==> NameEnd(s + t) >= |s|
  {
    var n := NameStart(s);
    assert (s + t)[n..] == s[n..] + t;
    AlphaRunConcat(s[n..], t);
    if NameEnd(s) < |s| {
      assert (s + t)[n..NameEnd(s)] == s[n..NameEnd(s)];
    }
  }

  /** A recognised tag does not depend on what follows it. */
  lemma ParseStable(s: string, t: string)
    requires ParseTag(s).Found?
    ensures ParseTag(s + t) == ParseTag(s)
  {
    NameConcat(s, t);
    var e := NameEnd(s);
    assert (s + t)[e..] == s[e..] + t;
    if IsCloseShape(s) {
      SpaceRunConcat(s[e..], t);
    } else {
      AttributesStable(s[e..], t, Unquoted, false);
    }
  }

  // ---- Which unfinished strings are held back ----

  lemma ThinkNameSpells(name: string)
    requires IsThinkName(name)
    ensures |name| == 5 || |name| == 8
    ensures forall i :: 0 <= i < |name| ==> IsAsciiAlpha(name[i]) && Lower(name[i]) == THINKING[i]
  {
    assert "think"[0] == THINKING[0] && "think"[1] == THINKING[1] && "think"[2] == THINKING[2]
        && "think"[3] == THINKING[3] && "think"[4] == THINKING[4];
    forall i | 0 <= i < |name| ensures IsAsciiAlpha(name[i]) && Lower(name[i]) == THINKING[i] {
      assert Lower(THINKING[i]) == THINKING[i];
      if EqIgnoreCase(name, "think") {
        assert Lower(name[i]) == Lower("think"[i]);
      } else {
        assert Lower(name[i]) == Lower("thinking"[i]);
      }
    }
  }

  lemma {:induction false} NoGtInLetters(s: string, n: nat)
    requires n <= |s|
    requires forall i :: 0 <= i < n ==> s[i] != '>' && !IsQuote(s[i])
    ensures HasGt(s, Unquoted) <==> HasGt(s[n..], Unquoted)
    ensures QuoteAfter(s, Unquoted) == QuoteAfter(s[n..], Unquoted)
  {
    if n == 0 {
      assert s[0..] == s;
    } else {
      NoGtInLetters(s[1..], n - 1);
      assert s[1..][n - 1..] == s[n..];
    }
  }

  /** If an extension of `s` starts with a tag that `s` does not contain, then `s`
      is held back, except for the three shapes the expressions miss. */
  lemma GrowingIsHeld(s: string, t: string)
    requires s != ""
    requires ParseTag(s).NoTag? && ParseTag(s + t).Found?
    ensures s == "<" || s == "</" || Held(s) || SlashOpen(s)
  {
    var u := s + t;
    assert u[0] == s[0];
    if |s| == 1 {
      assert s == "<";
    } else if s != "</" {
      NameConcat(s, t);
      ThinkNameSpells(Name(u));
      var n := NameStart(s);
      var e := NameEnd(u);
      if |s| <= e {
        GrowingName(s, t);
      } else if IsCloseShape(s) {
        GrowingClose(s, t);
      } else {
        GrowingOpen(s, t);
      }
    }
  }

  lemma LoneClose(s: string)
    requires |s| == 2 && s[0] == '<' && s[1] == '/'
    ensures s == "</"
  {}

  /** A prefix that ends inside the name of a tag spells a prefix of that name. */
  lemma GrowingSpells(s: string, t: string)
    requires |s| >= 2 && s != "</" && s[0] == '<'
    requires IsThinkName(Name(s + t)) && |s| <= NameEnd(s + t)
    ensures |s| - NameStart(s) <= 8 && SpellsPrefix(s, NameStart(s), |s| - NameStart(s))
    ensures forall i :: 0 <= i < |s| ==> s[i] != '>' && !IsQuote(s[i])
  {
    hide IsThinkName, AlphaRun;
    var u := s + t;
    NameConcat(s, t);
    ThinkNameSpells(Name(u));
    var n := NameStart(s);
    if |s| == n { LoneClose(s); }
    forall i | n <= i < |s| ensures FoldsTo(s[i], THINKING[i - n]) && IsAsciiAlpha(s[i]) {
      assert u[i] == s[i];
      assert Name(u)[i - n] == u[i];
    }
    LettersAreNotMarks(s, n);
  }

  lemma LettersAreNotMarks(s: string, n: nat)
    requires s != "" && s[0] == '<' && n == NameStart(s) && forall i :: n <= i < |s| ==> IsAsciiAlpha(s[i])
    ensures forall i :: 0 <= i < |s| ==> s[i] != '>' && !IsQuote(s[i])
  {}

  /** A tag that ends inside its name is a partial tag. */
  lemma NameIsPartial(s: string, k: nat)
    requires s != "" && s[0] == '<' && |s| == NameStart(s) + k && k <= 8 && SpellsPrefix(s, NameStart(s), k)
    ensures OpenPartial(s) || ClosePartial(s)
  {
    hide SpellsPrefix;
    var n := NameStart(s);
    assert s[n + k..] == "";
    if n == 1 {
      assert OpenPartialAt(s, k);
    } else {
      assert ClosePartialAt(s, k);
    }
  }

  lemma NoGtAnywhere(s: string)
    requires forall i :: 0 <= i < |s| ==> s[i] != '>' && !IsQuote(s[i])
    ensures !HasGt(s, Unquoted)
  {
    NoGtInLetters(s, |s|);
    assert s[|s|..] == "";
  }

  lemma GrowingName(s: string, t: string)
    requires |s| >= 2 && s != "</" && s[0] == '<'
    requires IsThinkName(Name(s + t)) && |s| <= NameEnd(s + t)
    ensures Held(s)
  {
    hide IsThinkName, NameEnd, Name, HasGt, SpellsPrefix, OpenPartial, ClosePartial, IsQuote;
    GrowingSpells(s, t);
    NameIsPartial(s, |s| - NameStart(s));
    NoGtAnywhere(s);
  }

  lemma NameSpells(s: string)
    requires s != "" && IsThinkName(Name(s))
    ensures SpellsPrefix(s, NameStart(s), NameEnd(s) - NameStart(s))
    ensures forall i :: NameStart(s) <= i < NameEnd(s) ==> IsAsciiAlpha(s[i])
  {
    hide IsThinkName, NameEnd;
    ThinkNameSpells(Name(s));
    var n, e := NameStart(s), NameEnd(s);
    forall i | n <= i < e ensures FoldsTo(s[i], THINKING[i - n]) && IsAsciiAlpha(s[i]) {
      assert Name(s)[i - n] == s[i];
    }
  }

  /** A closing tag that ends inside the white space after its name is held back. */
  lemma BlankCloseIsHeld(s: string)
    requires s != "" && s[0] == '<' && IsCloseShape(s) && IsThinkName(Name(s))
    requires SpaceRun(s[NameEnd(s)..]) == |s[NameEnd(s)..]|
    ensures Held(s)
  {
    hide IsThinkName, NameEnd, HasGt, SpellsPrefix;
    NameSpells(s);
    var e := NameEnd(s);
    assert e - 2 <= 8 by { ThinkNameSpells(Name(s)); }
    assert ClosePartialAt(s, e - 2);
    forall i | 0 <= i < |s| ensures s[i] != '>' && !IsQuote(s[i]) {
      if i >= e { assert IsAsciiWhitespace(s[e..][i - e]); }
    }
    NoGtAnywhere(s);
  }

  lemma GrowingClose(s: string, t: string)
    requires s != "" && s[0] == '<' && IsCloseShape(s)
    requires ParseTag(s).NoTag? && ParseTag(s + t).Found?
    requires NameEnd(s + t) < |s|
    ensures Held(s)
  {
    hide Held, IsThinkName, NameEnd, Name, SpaceRun, Attributes;
    var u := s + t;
    NameConcat(s, t);
    var e := NameEnd(s);
    assert u[e..] == s[e..] + t;
    SpaceRunConcat(s[e..], t);
    assert SpaceRun(s[e..]) == |s[e..]|;
    BlankCloseIsHeld(s);
  }

  lemma OpenHeadHasNoGt(s: string)
    requires s != "" && s[0] == '<' && !IsCloseShape(s) && IsThinkName(Name(s))
    ensures HasGt(s, Unquoted) <==> HasGt(s[NameEnd(s)..], Unquoted)
    ensures QuoteAfter(s, Unquoted) == QuoteAfter(s[NameEnd(s)..], Unquoted)
    ensures SpellsPrefix(s, 1, NameEnd(s) - 1)
  {
    var e := NameEnd(s);
    ThinkNameSpells(Name(s));
    forall i | 0 <= i < e - 1 ensures FoldsTo(s[1 + i], THINKING[i]) && IsAsciiAlpha(s[1 + i]) {
      assert Name(s)[i] == s[1 + i];
    }
    forall i | 0 <= i < e ensures s[i] != '>' && !IsQuote(s[i]) {
      if i >= 1 { assert IsAsciiAlpha(s[1 + (i - 1)]); }
    }
    NoGtInLetters(s, e);
  }

  lemma GrowingOpen(s: string, t: string)
    requires |s| >= 2 && s[0] == '<' && !IsCloseShape(s)
    requires ParseTag(s).NoTag? && ParseTag(s + t).Found?
    requires NameEnd(s + t) < |s|
    ensures Held(s) || SlashOpen(s)
  {
    var u := s + t;
    NameConcat(s, t);
    var e := NameEnd(s);
    OpenHeadHasNoGt(s);
    AttributesFindGt(s[e..], Unquoted, false);
    assert u[e] == s[e];
    assert !HasGt(s[e..], Unquoted);
    assert s[e] != '>';
    if s[e] == '/' {
      if e + 1 == |s| {
        assert s[1 + (e - 1)..] == "/";
        assert OpenPartialAt(s, e - 1);
      }
    } else {
      assert s[1 + (e - 1)..][0] == s[e];
      assert OpenPartialAt(s, e - 1);
    }
  }

  /** Being held back is inherited by every prefix that has reached the name. */
  lemma HeldPrefix(s: string, t: string)
    requires |s| >= 2 && s != "</" && Held(s + t)
    ensures Held(s)
  {
    hide HasGt, OpenPartial, ClosePartial;
    QuoteAfterConcat(s, t, Unquoted);
    if OpenPartial(s + t) { OpenPartialPrefix(s, t); } else { ClosePartialPrefix(s, t); }
  }

  lemma OpenPartialPrefix(s: string, t: string)
    requires |s| >= 2 && OpenPartial(s + t)
    ensures OpenPartial(s)
  {
    hide FoldsTo, IsWhitespace;
    var u := s + t;
    var k: nat :| k <= 8 && OpenPartialAt(u, k);
    var j := if |s| <= 1 + k then |s| - 1 else k;
    SpellsShorter(s, t, 1, k, j);
    if |s| > 1 + k {
      assert u[1 + k..][0] == s[1 + k..][0];
      assert s[1 + k..] + t == u[1 + k..];
    }
    assert s[0] == u[0];
    assert OpenPartialAt(s, j);
  }

  lemma SpellsShorter(s: string, t: string, from: nat, k: nat, j: nat)
    requires SpellsPrefix(s + t, from, k) && 1 <= j <= k && from + j <= |s|
    ensures SpellsPrefix(s, from, j)
  {
    hide FoldsTo;
    forall i | 0 <= i < j ensures FoldsTo(s[from + i], THINKING[i]) {
      assert (s + t)[from + i] == s[from + i];
    }
  }

  lemma ClosePartialPrefix(s: string, t: string)
    requires |s| >= 2 && s != "</" && ClosePartial(s + t)
    ensures ClosePartial(s)
  {
    hide FoldsTo, IsWhitespace;
    var u := s + t;
    var k: nat :| k <= 8 && ClosePartialAt(u, k);
    var j := if |s| <= 2 + k then |s| - 2 else k;
    assert s[0] == u[0] && s[1] == u[1];
    if j == 0 { LoneClose(s); }
    SpellsShorter(s, t, 2, k, j);
    var tail := s[2 + j..];
    forall i | 0 <= i < |tail| ensures IsWhitespace(tail[i]) {
      assert u[2 + k..][i] == tail[i];
    }
    assert ClosePartialAt(s, j);
  }
}
