/** The think tags as a grammar, written without reference to the parser, and
    what one pass over a text must find (thinking.rs). */
module ThinkGrammar {
  import opened Text
  import opened ThinkTags
  import opened ThinkScan
  import opened ThinkCuts

  // ---- The grammar ----

  /** A stretch of an opening tag behind its name: one bare character, or a
      quoted value. */
  datatype Part = Bare(c: char) | Quoted(mark: char, body: string)

  datatype Syntax = Opening(name: string, parts: seq<Part>) | Closing(name: string, spaces: string)

  predicate Space(c: char) { c as int in {9, 10, 12, 13, 32} }

  predicate AllSpace(s: string) { forall i :: 0 <= i < |s| ==> Space(s[i]) }

  predicate InEitherCase(s: string, lower: string, upper: string)
    requires |lower| == |upper|
  {
    |s| == |lower| && forall i :: 0 <= i < |s| ==> s[i] == lower[i] || s[i] == upper[i]
  }

  predicate TagName(name: string) {
    InEitherCase(name, "think", "THINK") || InEitherCase(name, "thinking", "THINKING")
  }

  predicate GoodPart(p: Part) {
    match p
    case Bare(c) => c != '>' && c != '"' && c != '\''
    case Quoted(m, body) => (m == '"' || m == '\'') && m !in body
  }

  predicate GoodParts(ps: seq<Part>) { forall i :: 0 <= i < |ps| ==> GoodPart(ps[i]) }

  predicate SpacePart(p: Part) { p.Bare? && Space(p.c) }

  predicate StartsApart(ps: seq<Part>) { ps == [] || ps[0] == Bare('/') || SpacePart(ps[0]) }

  predicate GoodTag(g: Syntax) {
    match g
    case Opening(name, ps) => TagName(name) && GoodParts(ps) && StartsApart(ps)
    case Closing(name, spaces) => TagName(name) && AllSpace(spaces)
  }

  function PartText(p: Part): string {
    match p
    case Bare(c) => [c]
    case Quoted(m, body) => [m] + body + [m]
  }

  function PartsText(ps: seq<Part>): string {
    if ps == [] then "" else PartText(ps[0]) + PartsText(ps[1..])
  }

  function TagText(g: Syntax): string {
    match g
    case Opening(name, ps) => "<" + name + PartsText(ps) + ">"
    case Closing(name, spaces) => "</" + name + spaces + ">"
  }

  /** The last part that is not white space is a bare `/`. */
  predicate EndsInSlash(ps: seq<Part>) {
    exists i :: 0 <= i < |ps| && ps[i] == Bare('/') && forall j :: i < j < |ps| ==> SpacePart(ps[j])
  }

  predicate AllSpaceParts(ps: seq<Part>) { forall j :: 0 <= j < |ps| ==> SpacePart(ps[j]) }

  function KindOf(g: Syntax): TagKind {
    match g
    case Opening(_, ps) => if EndsInSlash(ps) then SelfClosing else Open
    case Closing(_, _) => Close
  }

  // ---- Every tag of the grammar is recognised ----

  lemma SpaceIsAscii(c: char)
    ensures Space(c) <==> IsAsciiWhitespace(c)
  {}

  lemma {:induction false} QuotedRun(body: string, m: char, u: string, slash: bool)
    requires m !in body
    ensures Attributes(body + [m] + u, Inside(m), slash) == Longer(Attributes(u, Unquoted, slash), |body| + 1)
  {
    var s := body + [m] + u;
    if body == "" {
      assert s[1..] == u;
    } else {
      assert s[0] == body[0] && s[1..] == body[1..] + [m] + u;
      QuotedRun(body[1..], m, u, slash);
    }
  }

  lemma EndsInSlashCons(p: Part, ps: seq<Part>)
    ensures EndsInSlash([p] + ps) <==> EndsInSlash(ps) || (p == Bare('/') && AllSpaceParts(ps))
    ensures AllSpaceParts([p] + ps) <==> SpacePart(p) && AllSpaceParts(ps)
  {
    var s := [p] + ps;
    if EndsInSlash(s) {
      var i :| 0 <= i < |s| && s[i] == Bare('/') && forall j :: i < j < |s| ==> SpacePart(s[j]);
      forall j | i - 1 < j < |ps| ensures 0 <= j ==> SpacePart(ps[j]) { assert s[j + 1] == ps[j]; }
      if i > 0 { assert ps[i - 1] == Bare('/'); }
    }
    if EndsInSlash(ps) {
      var i :| 0 <= i < |ps| && ps[i] == Bare('/') && forall j :: i < j < |ps| ==> SpacePart(ps[j]);
      assert s[i + 1] == Bare('/');
    }
    if p == Bare('/') && AllSpaceParts(ps) { assert s[0] == Bare('/'); }
    if AllSpaceParts(s) {
      assert SpacePart(s[0]);
      forall j | 0 <= j < |ps| ensures SpacePart(ps[j]) { assert s[j + 1] == ps[j]; }
    }
  }

  function PartsKind(ps: seq<Part>, slash: bool): TagKind {
    if EndsInSlash(ps) || (slash && AllSpaceParts(ps)) then SelfClosing else Open
  }

  lemma NoParts(slash: bool)
    ensures PartsKind([], slash) == if slash then SelfClosing else Open
  {}

  lemma PartsKindCons(p: Part, ps: seq<Part>, slash: bool)
    ensures PartsKind([p] + ps, slash) == PartsKind(ps, if SpacePart(p) then slash else p == Bare('/'))
  {
    EndsInSlashCons(p, ps);
  }

  lemma PartIsAttribute(p: Part, u: string, slash: bool)
    requires GoodPart(p)
    ensures Attributes(PartText(p) + u, Unquoted, slash)
         == Longer(Attributes(u, Unquoted, if SpacePart(p) then slash else p == Bare('/')), |PartText(p)|)
  {
    hide Attributes;
    var s := PartText(p) + u;
    AttributesStep(s, Unquoted, slash);
    match p
    case Bare(c) =>
      assert s[0] == c && s[1..] == u;
      SpaceIsAscii(c);
    case Quoted(m, body) =>
      assert s[0] == m && s[1..] == body + [m] + u;
      QuotedRun(body, m, u, false);
  }

  lemma {:induction false} PartsAreAttributes(ps: seq<Part>, t: string, slash: bool)
    requires GoodParts(ps)
    ensures Attributes(PartsText(ps) + (">" + t), Unquoted, slash) == Found(PartsKind(ps, slash), |PartsText(ps)| + 1)
  {
    hide PartsKind, Attributes, PartText;
    if ps == [] {
      NoParts(slash);
      AttributesStep(">" + t, Unquoted, slash);
      assert PartsText(ps) + (">" + t) == ">" + t;
    } else {
      var p, rest := ps[0], ps[1..];
      var u := PartsText(rest) + (">" + t);
      assert [p] + rest == ps;
      var next := if SpacePart(p) then slash else p == Bare('/');
      PartsKindCons(p, rest, slash);
      PartsAreAttributes(rest, t, next);
      PartIsAttribute(p, u, slash);
      ConcatAssociates(PartText(p), PartsText(rest), ">" + t);
    }
  }

  lemma SameLetters(name: string, lower: string, upper: string)
    requires (lower == "think" && upper == "THINK") || (lower == "thinking" && upper == "THINKING")
    ensures EqIgnoreCase(name, lower) <==> InEitherCase(name, lower, upper)
  {
    if |name| == |lower| {
      forall i | 0 <= i < |name|
        ensures Lower(name[i]) == Lower(lower[i]) <==> name[i] == lower[i] || name[i] == upper[i]
      {
        OneLetter(name[i], lower[i], upper[i]);
      }
    }
  }

  lemma OneLetter(c: char, l: char, u: char)
    requires 'a' <= l <= 'z' && u as int + 32 == l as int
    ensures Lower(c) == Lower(l) <==> c == l || c == u
  {}

  lemma TagNames(name: string)
    ensures TagName(name) <==> IsThinkName(name)
  {
    SameLetters(name, "think", "THINK");
    SameLetters(name, "thinking", "THINKING");
  }

  /** The name of `<name…` and of `</name…`, when no letter follows it. */
  lemma NameOf(lead: string, name: string, rest: string)
    requires lead == "<" || lead == "</"
    requires TagName(name) && rest != "" && !IsAsciiAlpha(rest[0])
    ensures var s := lead + name + rest;
            && s[0] == '<' && IsCloseShape(s) == (lead == "</") && NameEnd(s) == |lead| + |name|
            && Name(s) == name && s[NameEnd(s)..] == rest
  {
    hide TagName, IsThinkName, AlphaRun;
    TagNames(name);
    ThinkNameSpells(name);
    var s := lead + name + rest;
    assert IsAsciiAlpha(name[0]);
    assert s[1] == if lead == "<" then name[0] else '/';
    assert NameStart(s) == |lead|;
    assert s[|lead|..] == name + rest;
    LettersThenOther(name, rest);
    assert s[|lead|..|lead| + |name|] == name;
  }

  lemma {:induction false} LettersThenOther(a: string, b: string)
    requires (forall i :: 0 <= i < |a| ==> IsAsciiAlpha(a[i])) && b != "" && !IsAsciiAlpha(b[0])
    ensures AlphaRun(a + b) == |a|
  {
    if a == "" {
      assert a + b == b;
    } else {
      assert (a + b)[0] == a[0] && (a + b)[1..] == a[1..] + b;
      LettersThenOther(a[1..], b);
    }
  }

  lemma {:induction false} SpacesThenOther(a: string, b: string)
    requires AllSpace(a) && b != "" && !IsAsciiWhitespace(b[0])
    ensures SpaceRun(a + b) == |a|
  {
    if a == "" {
      assert a + b == b;
    } else {
      assert (a + b)[0] == a[0] && (a + b)[1..] == a[1..] + b;
      SpaceIsAscii(a[0]);
      SpacesThenOther(a[1..], b);
    }
  }

  lemma PartsStart(ps: seq<Part>, t: string)
    requires StartsApart(ps)
    ensures var s := PartsText(ps) + (">" + t); OpenBoundary(s[0]) && !IsAsciiAlpha(s[0])
  {
    var s := PartsText(ps) + (">" + t);
    if ps == [] {
      assert s[0] == '>';
    } else {
      assert s[0] == ps[0].c;
      SpaceIsAscii(ps[0].c);
    }
  }

  lemma OpeningIsParsed(name: string, ps: seq<Part>, t: string)
    requires GoodTag(Opening(name, ps))
    ensures ParseTag("<" + name + (PartsText(ps) + (">" + t)))
         == Found(KindOf(Opening(name, ps)), 2 + |name| + |PartsText(ps)|)
  {
    hide IsThinkName, TagName, NameEnd, Name, Attributes, EndsInSlash, PartsText, GoodParts, OpenBoundary;
    TagNames(name);
    var rest := PartsText(ps) + (">" + t);
    PartsStart(ps, t);
    NameOf("<", name, rest);
    PartsAreAttributes(ps, t, false);
  }

  lemma ClosingIsParsed(name: string, spaces: string, t: string)
    requires GoodTag(Closing(name, spaces))
    ensures ParseTag("</" + name + (spaces + (">" + t))) == Found(Close, 3 + |name| + |spaces|)
  {
    hide IsThinkName, TagName, NameEnd, Name, Attributes, SpaceRun;
    TagNames(name);
    var rest := spaces + (">" + t);
    if spaces != "" { SpaceIsAscii(spaces[0]); }
    assert rest[0] == if spaces == "" then '>' else spaces[0];
    NameOf("</", name, rest);
    SpacesThenOther(spaces, ">" + t);
  }

  lemma SyntaxIsParsed(g: Syntax, t: string)
    requires GoodTag(g)
    ensures ParseTag(TagText(g) + t) == Found(KindOf(g), |TagText(g)|)
  {
    hide ParseTag, GoodTag, PartsText, EndsInSlash;
    match g {
      case Opening(name, ps) =>
        OpeningIsParsed(name, ps, t);
        assert TagText(g) + t == "<" + name + (PartsText(ps) + (">" + t));
      case Closing(name, spaces) =>
        ClosingIsParsed(name, spaces, t);
        assert TagText(g) + t == "</" + name + (spaces + (">" + t));
    }
  }

  // ---- Whatever is recognised is a tag of the grammar ----

  lemma {:induction false} QuoteCloses(s: string, m: char, slash: bool) returns (j: nat)
    requires Attributes(s, Inside(m), slash).Found?
    ensures j < |s| && s[j] == m && m !in s[..j]
    ensures Attributes(s, Inside(m), slash) == Longer(Attributes(s[j + 1..], Unquoted, slash), j + 1)
  {
    if s[0] == m {
      j := 0;
    } else {
      var i := QuoteCloses(s[1..], m, slash);
      j := i + 1;
      assert s[..j] == [s[0]] + s[1..][..i];
      assert s[1..][i + 1..] == s[j + 1..];
    }
  }

  /** The first part of an attribute list that does not end at once. */
  lemma AttributeIsPart(s: string, slash: bool) returns (p: Part, next: bool)
    requires Attributes(s, Unquoted, slash).Found? && s[0] != '>'
    ensures GoodPart(p) && |PartText(p)| <= |s| && PartText(p) == s[..|PartText(p)|] && p != Bare('>')
    ensures Attributes(s, Unquoted, slash)
         == Longer(Attributes(s[|PartText(p)|..], Unquoted, next), |PartText(p)|)
    ensures |PartText(p)| >= 1
  {
    hide Attributes;
    AttributesStep(s, Unquoted, slash);
    if s[0] == '"' || s[0] == '\'' {
      var m := s[0];
      var j := QuoteCloses(s[1..], m, false);
      p, next := Quoted(m, s[1..][..j]), false;
      assert s[..j + 2] == [m] + s[1..][..j] + [m];
      assert s[1..][j + 1..] == s[j + 2..];
    } else {
      p, next := Bare(s[0]), if IsAsciiWhitespace(s[0]) then slash else s[0] == '/';
    }
  }

  lemma {:induction false} AttributesAreParts(s: string, slash: bool) returns (ps: seq<Part>)
    requires Attributes(s, Unquoted, slash).Found?
    ensures GoodParts(ps) && PartsText(ps) + ">" == s[..Attributes(s, Unquoted, slash).len]
    decreases |s|
  {
    hide Attributes, GoodPart, PartText;
    AttributesStep(s, Unquoted, slash);
    if s[0] == '>' {
      ps := [];
      assert s[..1] == ">";
    } else {
      var p, next := AttributeIsPart(s, slash);
      var k := |PartText(p)|;
      var more := AttributesAreParts(s[k..], next);
      ps := [p] + more;
      assert ps[1..] == more;
      var n := Attributes(s[k..], Unquoted, next).len;
      ConcatAssociates(PartText(p), PartsText(more), ">");
      TakeTwice(s, k, n);
    }
  }

  lemma TakeTwice(s: string, k: nat, n: nat)
    requires k + n <= |s|
    ensures s[..k + n] == s[..k] + s[k..][..n]
  {}

  lemma ParsedCloses(s: string) returns (g: Syntax)
    requires ParseTag(s).Found? && IsCloseShape(s)
    ensures GoodTag(g) && TagText(g) == s[..ParseTag(s).len]
  {
    hide IsThinkName, TagName, NameEnd, Attributes, SpaceRun;
    TagNames(Name(s));
    var e := NameEnd(s);
    var w := SpaceRun(s[e..]);
    var spaces := s[e..e + w];
    g := Closing(Name(s), spaces);
    forall i | 0 <= i < |spaces| ensures Space(spaces[i]) {
      assert s[e..][i] == spaces[i];
      SpaceIsAscii(spaces[i]);
    }
    assert s[..2] == "</" && s[e + w..e + w + 1] == ">";
    FourParts(s, 2, e, e + w, e + w + 1);
  }

  lemma FourParts(s: string, a: nat, b: nat, c: nat, d: nat)
    requires a <= b <= c <= d <= |s|
    ensures s[..d] == s[..a] + s[a..b] + s[b..c] + s[c..d]
  {}

  lemma ParsedOpens(s: string) returns (g: Syntax)
    requires ParseTag(s).Found? && !IsCloseShape(s)
    ensures GoodTag(g) && TagText(g) == s[..ParseTag(s).len]
  {
    hide IsThinkName, TagName, NameEnd, Attributes, OpenBoundary, GoodPart, PartsText;
    TagNames(Name(s));
    var e := NameEnd(s);
    var ps := AttributesAreParts(s[e..], false);
    g := Opening(Name(s), ps);
    var k := Attributes(s[e..], Unquoted, false).len;
    var attributes := PartsText(ps) + ">";
    assert attributes == s[e..][..k];
    FirstPart(ps, s[e]);
    assert s[..e + k] == s[..1] + s[1..e] + s[e..][..k];
    assert s[..1] == "<";
  }

  lemma ParsedIsSyntax(s: string) returns (g: Syntax)
    requires ParseTag(s).Found?
    ensures GoodTag(g) && TagText(g) == s[..ParseTag(s).len]
  {
    hide ParseTag, GoodTag, TagText;
    if IsCloseShape(s) { g := ParsedCloses(s); } else { g := ParsedOpens(s); }
  }

  lemma FirstPart(ps: seq<Part>, c: char)
    requires GoodParts(ps) && OpenBoundary(c) && (PartsText(ps) + ">")[0] == c
    ensures StartsApart(ps)
  {
    if ps != [] {
      assert GoodPart(ps[0]);
      SpaceIsAscii(c);
      assert PartsText(ps) == PartText(ps[0]) + PartsText(ps[1..]);
    }
  }

  /** A tag of kind `k` and length `n` is found at the head of `s` if and only if
      `s` starts with a text of the grammar of that kind and length. */
  lemma ParseTagIsGrammar(s: string, k: TagKind, n: nat)
    ensures ParseTag(s) == Found(k, n) <==>
            n <= |s| && exists g :: GoodTag(g) && TagText(g) == s[..n] && KindOf(g) == k
  {
    hide ParseTag, GoodTag, TagText, KindOf;
    if ParseTag(s) == Found(k, n) {
      var g := ParsedIsSyntax(s);
      SyntaxIsParsed(g, s[n..]);
      assert s[..n] + s[n..] == s;
    }
    if n <= |s| && exists g :: GoodTag(g) && TagText(g) == s[..n] && KindOf(g) == k {
      var g :| GoodTag(g) && TagText(g) == s[..n] && KindOf(g) == k;
      SyntaxIsParsed(g, s[n..]);
      assert s[..n] + s[n..] == s;
    }
  }

  // ---- What the filter makes of a tag ----

  lemma {:induction false} BytesAtMost(s: string)
    ensures Bytes(s) <= 4 * |s|
  {
    if s != "" { BytesAtMost(s[1..]); }
  }

  lemma ParsedLook(g: Syntax, t: string, d: nat)
    requires GoodTag(g)
    ensures TagText(g) != ""
    ensures LookAt(TagText(g) + t, d)
         == if Bytes(TagText(g)) > CAP then Emit(|TagText(g)|)
            else if g.Closing? && d == 0 then Emit(1)
            else Take(KindOf(g), |TagText(g)|)
  {
    hide GoodTag, PartsText, EndsInSlash, ParseTag, Held;
    SyntaxIsParsed(g, t);
    var u := TagText(g) + t;
    assert u[0] == '<' && u[..|TagText(g)|] == TagText(g);
  }

  lemma ClosingHasNoLess(name: string, spaces: string)
    requires GoodTag(Closing(name, spaces))
    ensures NoLess(TagText(Closing(name, spaces))[1..])
  {
    hide TagName;
    TagNames(name);
    ThinkNameSpells(name);
    var s := TagText(Closing(name, spaces));
    forall i | 0 <= i < |s[1..]| ensures s[1..][i] != '<' {
      assert s[1..][i] == s[i + 1];
      if 2 <= i + 1 < 2 + |name| { assert s[i + 1] == name[i - 1]; }
      else if 2 + |name| <= i + 1 < |s| - 1 { assert s[i + 1] == spaces[i - 1 - |name|]; }
    }
  }

  lemma CloseOutsideIsText(name: string, spaces: string, t: string)
    requires GoodTag(Closing(name, spaces))
    requires var g := Closing(name, spaces); TagText(g) != "" && LookAt(TagText(g) + t, 0) == Emit(1)
    ensures var g := Closing(name, spaces); Final(TagText(g) + t, 0) == Plains(TagText(g), false) + Final(t, 0)
  {
    hide GoodTag, TagText, LookAt, Final;
    var tag := TagText(Closing(name, spaces));
    var u := tag + t;
    FinalEmit(u, 1, 0);
    ClosingHasNoLess(name, spaces);
    PlainRun(tag[1..], t, 0);
    assert u[1..] == tag[1..] + t && u[..1] == tag[..1];
    PlainsConcat(tag[..1], tag[1..], false);
    assert tag[..1] + tag[1..] == tag;
  }

  function DepthBehind(g: Syntax, d: nat): nat
    requires g.Closing? ==> d > 0
  {
    if g.Closing? then d - 1 else if EndsInSlash(g.parts) then d else d + 1
  }

  lemma NextDepthIsBehind(g: Syntax, d: nat)
    requires g.Closing? ==> d > 0
    ensures NextDepth(d, KindOf(g)) == DepthBehind(g, d)
  {}

  /** A tag of the grammar at nesting depth `d`: over 8192 bytes, or a closing
      tag outside every block, it is text on the current side; otherwise it
      disappears and an opening one nests deeper, a closing one less deep. */
  lemma TagIsRead(g: Syntax, t: string, d: nat)
    requires GoodTag(g)
    ensures Final(TagText(g) + t, d)
         == if Bytes(TagText(g)) > 8192 || (g.Closing? && d == 0)
            then Plains(TagText(g), d > 0) + Final(t, d)
            else [Tag(TagText(g), KindOf(g))] + Final(t, DepthBehind(g, d))
  {
    hide GoodTag, TagText, KindOf, LookAt, Final, DepthBehind;
    var tag := TagText(g);
    var u, n := tag + t, |tag|;
    ParsedLook(g, t, d);
    assert u[..n] == tag && u[n..] == t;
    if Bytes(tag) > CAP {
      FinalEmit(u, n, d);
    } else if g.Closing? && d == 0 {
      CloseOutsideIsText(g.name, g.spaces, t);
    } else {
      FinalTake(u, KindOf(g), n, d);
      NextDepthIsBehind(g, d);
    }
  }

  lemma OutputAppends(p: seq<Piece>, q: seq<Piece>)
    ensures Output(p + q) == FilterOut(Output(p).content + Output(q).content, Output(p).thinking + Output(q).thinking)
  {
    SideConcat(p, q, false);
    SideConcat(p, q, true);
  }

  lemma TagIsSilent(t: string, k: TagKind)
    ensures Output([Tag(t, k)]) == FilterOut("", "")
  {
    assert [Tag(t, k)][1..] == [];
    assert Side([], false) == "" && Side([], true) == "";
  }

  lemma PlainsOutput(s: string, d: nat)
    ensures Output(Plains(s, d > 0)) == if d > 0 then FilterOut("", s) else FilterOut(s, "")
  {
    PlainsViews(s, d);
  }

  lemma ShortTag(lead: string, name: string)
    requires |lead| <= 2 && TagName(name)
    ensures Bytes(lead + name + ">") <= 8192
  {
    BytesAtMost(lead + name + ">");
  }

  /** Both names open and close a block, in any case and mixed: what stands
      between the tags is thinking, what follows is content. */
  lemma BlockIsSplit(name: string, body: string, name': string, rest: string)
    requires TagName(name) && TagName(name') && NoLess(body) && NoLess(rest)
    ensures Output(Final("<" + name + ">" + body + "</" + name' + ">" + rest, 0)) == FilterOut(rest, body)
  {
    hide TagName, Final, Output, Side, Bytes, NoLess;
    var open, close := Opening(name, []), Closing(name', "");
    assert PartsText([]) == "" && !EndsInSlash([]);
    assert "<" + name + "" + ">" == "<" + name + ">" && "</" + name' + "" + ">" == "</" + name' + ">";
    ShortTag("<", name);
    ShortTag("</", name');
    var tail := TagText(close) + rest;
    assert "<" + name + ">" + body + "</" + name' + ">" + rest == TagText(open) + (body + tail);
    TagIsRead(open, body + tail, 0);
    PlainRun(body, tail, 1);
    TagIsRead(close, rest, 1);
    PlainAll(rest, 0);
    OutputAppends([Tag(TagText(open), Open)],
                  Plains(body, true) + ([Tag(TagText(close), Close)] + Plains(rest, false)));
    OutputAppends(Plains(body, true), [Tag(TagText(close), Close)] + Plains(rest, false));
    OutputAppends([Tag(TagText(close), Close)], Plains(rest, false));
    TagIsSilent(TagText(open), Open);
    TagIsSilent(TagText(close), Close);
    PlainsOutput(body, 1);
    PlainsOutput(rest, 0);
    assert "" + (body + ("" + "")) == body && "" + ("" + ("" + rest)) == rest;
  }

  /** The nesting depth counts the opening tags that were not closed. */
  function Count(p: seq<Piece>, k: TagKind): nat {
    if p == [] then 0 else (if p[0].Tag? && p[0].kind == k then 1 else 0) + Count(p[1..], k)
  }

  lemma {:induction false} DepthCounts(p: seq<Piece>, d: nat)
    requires Routed(p, d)
    ensures DepthAfter(p, d) == d + Count(p, Open) - Count(p, Close)
  {
    if p != [] {
      DepthCounts(p[1..], if p[0].Tag? then NextDepth(d, p[0].kind) else d);
    }
  }

  /** The text `v` hides what starts `m` characters into it: it starts with a
      recognised tag over the cap, or is itself an unfinished tag. */
  predicate Hides(v: string, m: nat) {
    m > 0 && (Held(v) || (ParseTag(v).Found? && ParseTag(v).len > m && Bytes(v[..ParseTag(v).len]) > 8192))
  }

  /** The character at piece `i` lies in text that hides it. */
  predicate Hidden(p: seq<Piece>, i: nat)
    requires i < |p|
  {
    exists j :: 0 <= j < i && Hides(Flatten(p[j..]), i - j) && forall h :: j <= h < i ==> p[h].Plain?
  }

  lemma HiddenBefore(p: seq<Piece>, q: seq<Piece>, i: nat)
    requires i < |q| && Hidden(q, i)
    ensures Hidden(p + q, |p| + i)
  {
    hide Hides;
    var r := p + q;
    var j :| 0 <= j < i && Hides(Flatten(q[j..]), i - j) && forall h :: j <= h < i ==> q[h].Plain?;
    assert r[|p| + j..] == q[j..];
    forall h | |p| + j <= h < |p| + i ensures r[h].Plain? { assert r[h] == q[h - |p|]; }
  }

  /** A tag of at most 8192 bytes starts at piece `i`, and no reason excuses that
      it was not recognised: it does not close outside every block, and nothing hides it. */
  predicate MissedTag(p: seq<Piece>, d: nat, i: nat)
    requires i < |p|
  {
    var v := Flatten(p[i..]);
    && p[i].Plain? && ParseTag(v).Found? && Bytes(v[..ParseTag(v).len]) <= 8192
    && !(ParseTag(v).kind == Close && DepthAfter(p[..i], d) == 0)
    && !Hidden(p, i)
  }

  lemma MissedLater(head: seq<Piece>, q: seq<Piece>, d: nat, i: nat)
    requires i < |q| && MissedTag(head + q, d, |head| + i)
    ensures MissedTag(q, DepthAfter(head, d), i)
  {
    hide ParseTag, Hidden, Flatten, DepthAfter, Routed, Bytes;
    var p := head + q;
    assert p[|head| + i..] == q[i..] && p[..|head| + i] == head + q[..i] && p[|head| + i] == q[i];
    RoutedConcat(head, q[..i], d);
    if Hidden(q, i) { HiddenBefore(head, q, i); }
  }

  lemma NotMissedFirst(b: string, d: nat)
    requires b != "" && Final(b, d) != [] && Final(b, d)[0].Plain? && !LookAt(b, d).Take?
    ensures !MissedTag(Final(b, d), d, 0)
  {
    hide Final, Held, Hidden, Bytes, Routed;
    FinalPartitions(b, d);
    assert Final(b, d)[0..] == Final(b, d) && Final(b, d)[..0] == [];
    assert DepthAfter([], d) == d;
    if b[0] == '<' && ParseTag(b).Found? && Bytes(b[..ParseTag(b).len]) <= CAP {
      assert d == 0 && ParseTag(b).kind == Close;
    }
  }

  lemma HeadHides(b: string, d: nat, n: nat, i: nat)
    requires b != "" && 0 < i < n <= |Final(b, d)| && forall h :: 0 <= h < n ==> Final(b, d)[h].Plain?
    requires LookAt(b, d) == Emit(n) || LookAt(b, d) == Hold
    ensures Hidden(Final(b, d), i)
  {
    hide Final, Held, Bytes, Routed, Flatten;
    FinalPartitions(b, d);
    assert Final(b, d)[0..] == Final(b, d);
    assert Hides(Flatten(Final(b, d)[0..]), i - 0);
  }

  /** One pass misses no tag: wherever a character became text although a tag of
      at most 8192 bytes starts there, that tag closes outside every block, or
      the place lies inside an overlong or an unfinished tag. */
  lemma {:induction false} NoTagMissed(b: string, d: nat, i: nat)
    requires i < |Final(b, d)|
    ensures !MissedTag(Final(b, d), d, i)
    decreases |b|
  {
    hide ParseTag, Held, Final, Hidden, Bytes, Routed, Flatten, DepthAfter, MissedTag, LookAt;
    if b == "" {
      FinalEmpty(d);
      assert false;
    }
    var p := Final(b, d);
    if i == 0 && p[0].Plain? && !LookAt(b, d).Take? {
      NotMissedFirst(b, d);
    } else if MissedTag(p, d, i) {
      MissedIsOpen(p, d, i);
      match LookAt(b, d)
      case Emit(n) =>
        FinalEmit(b, n, d);
        PlainsViews(b[..n], d);
        if i < n {
          HeadHides(b, d, n, i);
        } else {
          MissedLater(Plains(b[..n], d > 0), Final(b[n..], d), d, i - n);
          NoTagMissed(b[n..], d, i - n);
        }
      case Take(k, n) =>
        FinalTake(b, k, n, d);
        var head := [Tag(b[..n], k)];
        TagPiece(b, k, n, d);
        MissedLater(head, Final(b[n..], NextDepth(d, k)), d, i - 1);
        NoTagMissed(b[n..], NextDepth(d, k), i - 1);
      case Hold =>
        FinalHold(b, d);
        HeadHides(b, d, |b|, i);
    }
  }

  lemma MissedIsOpen(p: seq<Piece>, d: nat, i: nat)
    requires i < |p| && MissedTag(p, d, i)
    ensures p[i].Plain? && !Hidden(p, i)
  {}

  // ---- What is held back ----

  /** Something may follow that makes `s` start with a tag. */
  ghost predicate CanGrow(s: string) { exists t :: ParseTag(s + t).Found? }

  /** The name has not ended, or it is that of a tag and what follows it may
      stand there. */
  predicate Unfinished(s: string)
    requires s != ""
  {
    var e := NameEnd(s);
    || e == |s|
    || (TagName(Name(s)) && if IsCloseShape(s) then AllSpace(s[e..]) else s[e] == '/' || Space(s[e]))
  }

  lemma AllSpaceCons(s: string)
    requires s != "" && Space(s[0])
    ensures AllSpace(s[1..]) ==> AllSpace(s)
  {
    assert s == [s[0]] + s[1..];
  }

  lemma {:induction false} NoSpaceRun(s: string, t: string)
    requires !AllSpace(s)
    ensures SpaceRun(s + t) < |s| && (s + t)[SpaceRun(s + t)] == s[SpaceRun(s + t)]
  {
    assert (s + t)[0] == s[0] && (s + t)[1..] == s[1..] + t;
    SpaceIsAscii(s[0]);
    if Space(s[0]) {
      AllSpaceCons(s);
      NoSpaceRun(s[1..], t);
    }
  }

  /** A `</name` followed by blanks that are not all ASCII white space stays text. */
  lemma SpoiltClose(s: string, t: string)
    requires |s| >= 2 && IsCloseShape(s) && NameEnd(s) < |s|
    requires IsBlank(s[NameEnd(s)..]) && !AllSpace(s[NameEnd(s)..])
    ensures ParseTag(s + t).NoTag?
  {
    hide IsThinkName, NameEnd, Name, SpaceRun;
    var e := NameEnd(s);
    NameConcat(s, t);
    assert (s + t)[e..] == s[e..] + t;
    NoSpaceRun(s[e..], t);
    var w := SpaceRun((s + t)[e..]);
    assert IsWhitespace(s[e..][w]) && s[e..][w] == (s + t)[e + w];
  }

  lemma SpoiltStays(s: string, t: string)
    requires |s| >= 2 && Held(s) && !Unfinished(s)
    ensures ParseTag(s + t).NoTag?
  {
    hide IsThinkName, TagName, NameEnd, Name, HasGt, OpenPartial, ClosePartial, AllSpace;
    var e := NameEnd(s);
    TagNames(Name(s));
    NameConcat(s, t);
    assert s[0] == '<' by { HeldStart(s); }
    if TagName(Name(s)) {
      if IsCloseShape(s) {
        CloseHeldBlank(s);
        SpoiltClose(s, t);
      } else {
        assert (s + t)[e] == s[e];
        SpaceIsAscii(s[e]);
        assert s[e] != '>' by { if s[e] == '>' { BoundaryIsNotGt(s); } }
      }
    }
  }

  /** What is held back has no `>` behind its name. */
  lemma BoundaryIsNotGt(s: string)
    requires s != "" && s[0] == '<' && !IsCloseShape(s) && TagName(Name(s)) && NameEnd(s) < |s| && s[NameEnd(s)] == '>'
    ensures HasGt(s, Unquoted)
  {
    hide TagName, IsThinkName;
    TagNames(Name(s));
    OpenHeadHasNoGt(s);
    assert s[NameEnd(s)..][0] == '>';
  }

  lemma CloseHeldBlank(s: string)
    requires Held(s) && IsCloseShape(s) && NameEnd(s) < |s| && TagName(Name(s))
    ensures IsBlank(s[NameEnd(s)..])
  {
    hide HasGt, TagName;
    assert forall k: nat :: OpenPartialAt(s, k) ==> FoldsTo(s[1 + 0], THINKING[0]);
    var k: nat :| k <= 8 && ClosePartialAt(s, k);
    var e := NameEnd(s);
    TagNames(Name(s));
    ThinkNameSpells(Name(s));
    NameCoversSpelled(s, k);
    forall i | 0 <= i < |s[e..]| ensures IsWhitespace(s[e..][i]) {
      assert s[2 + k..][e + i - 2 - k] == s[e..][i];
    }
  }

  /** A tag name is not cut short inside the spelled letters: the only letter
      of them that is not ASCII stands where no tag name ends. */
  lemma NameCoversSpelled(s: string, k: nat)
    requires s != "" && k <= 8 && SpellsPrefix(s, NameStart(s), k)
    requires |Name(s)| == 5 || |Name(s)| == 8
    ensures NameEnd(s) >= NameStart(s) + k
  {
    var n, e := NameStart(s), NameEnd(s);
    if e < n + k {
      assert FoldsTo(s[n + (e - n)], THINKING[e - n]);
      assert s[n..][e - n] == s[e];
      assert !IsAsciiAlpha(s[e]);
      LetterFolds(s[e], THINKING[e - n]);
    }
  }

  lemma LetterFolds(c: char, l: char)
    requires 'a' <= l <= 'z' && FoldsTo(c, l) && !IsAsciiAlpha(c)
    ensures l == 'k'
  {}

  /** Letters that spell the start of "thinking" can be completed. */
  lemma LettersGrow(s: string)
    requires s != "" && s[0] == '<' && NameEnd(s) == |s|
    requires var n := NameStart(s); |s| - n <= 8 && SpellsPrefix(s, n, |s| - n)
    ensures CanGrow(s)
  {
    hide NameEnd, SpellsPrefix, ParseTag, PartsText, TagName;
    var n := NameStart(s);
    var rest := THINKING[|s| - n..];
    var name := s[n..] + rest;
    LettersComplete(s);
    var lead := if n == 1 then "<" else "</";
    assert s[..n] == lead && s == lead + s[n..];
    assert s + (rest + ">") == lead + name + ">";
    NameIsTag(name);
  }

  /** The shortest tags of a name. */
  lemma NameIsTag(name: string)
    requires TagName(name)
    ensures ParseTag("<" + name + ">").Found? && ParseTag("</" + name + ">").Found?
  {
    hide ParseTag, PartsText, TagName;
    NoPartsText();
    assert TagText(Opening(name, [])) + "" == "<" + name + ">";
    SyntaxIsParsed(Opening(name, []), "");
    assert TagText(Closing(name, "")) + "" == "</" + name + ">";
    SyntaxIsParsed(Closing(name, ""), "");
  }

  lemma NoPartsText()
    ensures PartsText([]) == ""
  {}

  lemma LettersComplete(s: string)
    requires s != "" && NameEnd(s) == |s|
    requires var n := NameStart(s); |s| - n <= 8 && SpellsPrefix(s, n, |s| - n)
    ensures TagName(s[NameStart(s)..] + THINKING[|s| - NameStart(s)..])
  {
    hide NameEnd;
    var n := NameStart(s);
    var k := |s| - n;
    var name := s[n..] + THINKING[k..];
    forall i | 0 <= i < |name| ensures name[i] == "thinking"[i] || name[i] == "THINKING"[i] {
      if i < k {
        assert FoldsTo(s[n + i], THINKING[i]);
        LetterOfName(s, i);
        LetterIsEither(s[n + i], i);
      }
    }
    assert InEitherCase(name, "thinking", "THINKING");
  }

  lemma LetterIsEither(c: char, i: nat)
    requires i < 8 && FoldsTo(c, THINKING[i]) && IsAsciiAlpha(c)
    ensures c == "thinking"[i] || c == "THINKING"[i]
  {
    OneLetter(c, THINKING[i], "THINKING"[i]);
  }

  lemma LetterOfName(s: string, i: nat)
    requires s != "" && NameEnd(s) == |s| && i < |s| - NameStart(s)
    ensures IsAsciiAlpha(s[NameStart(s) + i])
  {
    assert s[NameStart(s)..][i] == s[NameStart(s) + i];
  }

  lemma LetterBegins(s: string, i: nat)
    requires s != "" && NameEnd(s) == |s| && i <= |s| - NameStart(s)
    ensures var t := s[NameStart(s) + i..]; t != "" ==> IsAsciiAlpha(t[0])
  {
    hide NameEnd;
    if i < |s| - NameStart(s) { LetterOfName(s, i); }
  }

  lemma NoTail(t: string)
    requires (OpenTail(t) || IsBlank(t)) && (t != "" ==> IsAsciiAlpha(t[0]))
    ensures t == ""
  {}

  /** Held letters end where the spelled ones do. */
  lemma HeldLetters(s: string)
    requires Held(s) && NameEnd(s) == |s|
    ensures s != "" && s[0] == '<'
    ensures var n := NameStart(s); |s| - n <= 8 && SpellsPrefix(s, n, |s| - n)
  {
    hide HasGt;
    if OpenPartial(s) {
      var k: nat :| k <= 8 && OpenPartialAt(s, k);
      assert FoldsTo(s[1 + 0], THINKING[0]);
      assert NameStart(s) == 1;
      LetterBegins(s, k);
      NoTail(s[1 + k..]);
    } else {
      var k: nat :| k <= 8 && ClosePartialAt(s, k);
      LetterBegins(s, k);
      NoTail(s[2 + k..]);
    }
  }

  /** Not all that is held back can become a tag; exactly what is unfinished can. */
  lemma HeldGrowsExactly(s: string)
    requires Held(s)
    ensures s != "" && (CanGrow(s) <==> Unfinished(s))
  {
    hide ParseTag, TagName, IsThinkName, NameEnd, Name, SpellsPrefix, AllSpace;
    HeldStart(s);
    if !Unfinished(s) {
      forall t ensures ParseTag(s + t).NoTag? { SpoiltStays(s, t); }
    } else if NameEnd(s) == |s| {
      HeldLetters(s);
      LettersGrow(s);
    } else if IsCloseShape(s) {
      UnfinishedClose(s);
    } else {
      UnfinishedOpen(s);
    }
  }

  lemma HeldStart(s: string)
    requires Held(s)
    ensures |s| >= 2 && s[0] == '<'
  {}

  lemma UnfinishedClose(s: string)
    requires s != "" && s[0] == '<' && IsCloseShape(s) && TagName(Name(s)) && AllSpace(s[NameEnd(s)..])
    ensures CanGrow(s)
  {
    hide ParseTag, TagName, NameEnd, AllSpace;
    var e := NameEnd(s);
    var g := Closing(Name(s), s[e..]);
    assert s[..2] == "</" && s == s[..2] + s[2..e] + s[e..];
    assert TagText(g) + "" == s + ">";
    SyntaxIsParsed(g, "");
  }

  lemma UnfinishedOpen(s: string)
    requires Held(s) && s != "" && s[0] == '<' && !IsCloseShape(s) && TagName(Name(s)) && NameEnd(s) < |s|
    requires s[NameEnd(s)] == '/' || Space(s[NameEnd(s)])
    ensures CanGrow(s)
  {
    hide ParseTag, TagName, IsThinkName, NameEnd, Name, HasGt, QuoteAfter;
    TagNames(Name(s));
    SpaceIsAscii(s[NameEnd(s)]);
    assert RealOpen(s);
    var q := EndQuote(s);
    RealOpenGrows(s, Closer(q));
    CloserFinishes(q);
  }

  lemma CloserFinishes(q: Quote)
    ensures HasGt(Closer(q), q)
  {
    if q.Inside? { assert Closer(q)[1..] == ">"; }
  }
}
