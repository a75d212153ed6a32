/** Escaping and its inverse, wrappers around tool arguments, and arguments quoted
    more than once (json.rs). */
module JsonArguments {
  import opened Common
  import opened Text
  import opened JsonRepair

  // ---- Escapes ----

  function HexValue(c: char): Option<nat> {
    if '0' <= c <= '9' then Some(c as nat - '0' as nat)
    else if 'a' <= c <= 'f' then Some(c as nat - 'a' as nat + 10)
    else if 'A' <= c <= 'F' then Some(c as nat - 'A' as nat + 10)
    else None
  }

  datatype Escape = Escape(length: nat, c: char)

  /** The control character that the text begins with in escaped form, as section 7
      of RFC 8259 reads it, and the length of that form. */
  function EscapeAt(s: string): (r: Option<Escape>)
    ensures r.Some? ==> 2 <= r.value.length <= |s| && r.value.c < 0x20 as char
  {
    if |s| < 2 || s[0] != '\\' then None
    else if s[1] == 'b' then Some(Escape(2, 0x08 as char))
    else if s[1] == 't' then Some(Escape(2, 0x09 as char))
    else if s[1] == 'n' then Some(Escape(2, 0x0A as char))
    else if s[1] == 'f' then Some(Escape(2, 0x0C as char))
    else if s[1] == 'r' then Some(Escape(2, 0x0D as char))
    else if s[1] == 'u' && |s| >= 6 && s[2] == '0' && s[3] == '0'
            && HexValue(s[4]).Some? && HexValue(s[4]).value < 2 && HexValue(s[5]).Some? then
      Some(Escape(6, (HexValue(s[4]).value * 16 + HexValue(s[5]).value) as char))
    else None
  }

  /** The text with its escaped control characters put back. */
  function Unescaped(s: string): string
    decreases |s|
  {
    if s == "" then ""
    else match EscapeAt(s)
      case Some(e) => [e.c] + Unescaped(s[e.length..])
      case None => [s[0]] + Unescaped(s[1..])
  }

  predicate IsControl(c: char) { c < 0x20 as char }

  lemma {:induction false} EscapedConcat(s: string, t: string)
    ensures Escaped(s + t) == Escaped(s) + Escaped(t)
  {
    hide EscapeChar;
    if t == "" {
      assert s + t == s;
    } else {
      assert (s + t)[..|s + t| - 1] == s + t[..|t| - 1];
      EscapedConcat(s, t[..|t| - 1]);
    }
  }

  lemma EscapedOne(c: char)
    ensures Escaped([c]) == EscapeChar(c)
  {
    assert [c][..0] == "";
    assert Escaped("") == "";
  }

  lemma EscapedCons(s: string)
    requires s != ""
    ensures Escaped(s) == EscapeChar(s[0]) + Escaped(s[1..])
  {
    assert s == [s[0]] + s[1..];
    EscapedConcat([s[0]], s[1..]);
    EscapedOne(s[0]);
  }

  lemma HexReads(n: nat)
    requires n < 16
    ensures HexValue(HexDigit(n)) == Some(n)
  {
    var digits := "0123456789abcdef";
    assert digits[n] == if n < 10 then ('0' as nat + n) as char else ('a' as nat + (n - 10)) as char;
  }

  /** The escape of a control character reads as that character, whatever follows. */
  lemma EscapeReads(c: char, rest: string)
    requires IsControl(c)
    ensures EscapeAt(EscapeChar(c) + rest) == Some(Escape(|EscapeChar(c)|, c))
  {
    var e := EscapeChar(c);
    EscapeReadsAlone(c);
    assert (e + rest)[..|e|] == e == e[..|e|];
    EscapeAtPrefix(e + rest, e, |e|);
  }

  lemma EscapeReadsAlone(c: char)
    requires IsControl(c)
    ensures EscapeAt(EscapeChar(c)) == Some(Escape(|EscapeChar(c)|, c))
  {
    hide HexValue, HexDigit;
    var n := c as nat;
    if n != 0x08 && n != 0x09 && n != 0x0A && n != 0x0C && n != 0x0D {
      HexReads(n / 16);
      HexReads(n % 16);
      LongEscape(HexDigit(n / 16), HexDigit(n % 16));
    }
  }

  /** The long form, by its two digits. */
  lemma LongEscape(x: char, y: char)
    requires HexValue(x).Some? && HexValue(x).value < 2 && HexValue(y).Some?
    ensures var e := "\\u00" + [x, y];
            |e| == 6 && EscapeAt(e) == Some(Escape(6, (HexValue(x).value * 16 + HexValue(y).value) as char))
  {
    hide HexValue;
    var e := "\\u00" + [x, y];
    assert e[4] == x && e[5] == y;
  }

  /** As far as the escaped text has no backslash after its first character, it is
      the text itself. */
  lemma {:induction false} SameUntilBackslash(s: string, n: nat)
    requires 1 <= n <= |Escaped(s)| && s != "" && !IsControl(s[0])
    requires forall i :: 1 <= i < n ==> Escaped(s)[i] != '\\'
    ensures n <= |s| && s[..n] == Escaped(s)[..n]
    decreases |s|
  {
    hide Escaped, EscapeChar;
    var e := Escaped(s);
    EscapedCons(s);
    PlainHead(s);
    var t := s[1..];
    assert e == [s[0]] + Escaped(t);
    if n > 1 {
      assert forall i :: 0 <= i < |Escaped(t)| ==> Escaped(t)[i] == e[i + 1];
      NotEmptied(t);
      ControlShows(t);
      SameUntilBackslash(t, n - 1);
      assert s[..n] == [s[0]] + t[..n - 1];
      assert e[..n] == [e[0]] + Escaped(t)[..n - 1];
    }
  }

  lemma ControlShows(t: string)
    requires t != ""
    ensures IsControl(t[0]) ==> Escaped(t) != "" && Escaped(t)[0] == '\\'
  {
    EscapedCons(t);
    if IsControl(t[0]) { EscapeShape(t[0]); }
  }

  lemma NotEmptied(t: string)
    requires Escaped(t) != ""
    ensures t != ""
  {}

  /** Plain text is escaped to itself. */
  lemma {:induction false} PlainStays(s: string)
    ensures (forall i :: 0 <= i < |s| ==> !IsControl(s[i])) <==> Escaped(s) == s
    ensures forall i :: 0 <= i < |Escaped(s)| ==> !IsControl(Escaped(s)[i])
    ensures |s| <= |Escaped(s)|
  {
    if s != "" {
      var n := |s| - 1;
      PlainStays(s[..n]);
      assert s == s[..n] + [s[n]];
      NoControlLeft(s[n]);
      if forall i :: 0 <= i < |s| ==> !IsControl(s[i]) {
        assert forall i :: 0 <= i < n ==> s[..n][i] == s[i];
        assert !IsControl(s[n]);
      } else if forall i :: 0 <= i < n ==> !IsControl(s[..n][i]) {
        assert IsControl(s[n]);
        EscapeShape(s[n]);
      }
    }
  }

  lemma NoControlLeft(c: char)
    ensures EscapeChar(c) != "" && forall i :: 0 <= i < |EscapeChar(c)| ==> !IsControl(EscapeChar(c)[i])
  {
    if IsControl(c) {
      EscapeShape(c);
      HexReads(c as nat / 16);
      HexReads(c as nat % 16);
    }
  }

  /** What an escape reads stays what it reads when more is escaped behind it. */
  lemma EscapeAtAgrees(s: string)
    requires s != "" && !IsControl(s[0])
    ensures EscapeAt(Escaped(s)) == EscapeAt(s)
    ensures EscapeAt(s).Some? ==> var n := EscapeAt(s).value.length; Escaped(s)[n..] == Escaped(s[n..])
  {
    hide Escaped;
    PlainStays(s);
    EscapeAtBackslash(Escaped(s));
    if EscapeAt(Escaped(s)).Some? {
      var n := EscapeAt(Escaped(s)).value.length;
      SameUntilBackslash(s, n);
      EscapeAtPrefix(s, Escaped(s), n);
    }
    if EscapeAt(s).Some? {
      var n := EscapeAt(s).value.length;
      EscapeAtBackslash(s);
      assert s == s[..n] + s[n..];
      EscapedConcat(s[..n], s[n..]);
      PlainStays(s[..n]);
      assert Escaped(s)[..n] == s[..n];
      EscapeAtPrefix(Escaped(s), s, n);
    }
  }

  /** Behind its backslash an escape has neither a backslash nor a control character. */
  lemma EscapeAtBackslash(s: string)
    ensures EscapeAt(s).Some? ==>
              var n := EscapeAt(s).value.length;
              && (forall i :: 0 <= i < n ==> !IsControl(s[i]))
              && (forall i :: 1 <= i < n ==> s[i] != '\\')
  {}

  /** An escape is read off its own characters alone. */
  lemma EscapeAtPrefix(s: string, t: string, n: nat)
    requires n <= |s| && n <= |t| && s[..n] == t[..n] && EscapeAt(t).Some? && EscapeAt(t).value.length == n
    ensures EscapeAt(s) == EscapeAt(t)
  {
    assert forall i :: 0 <= i < n ==> s[i] == s[..n][i] == t[..n][i] == t[i];
  }

  /** Unescaping takes back exactly what escaping did: it makes the same of the escaped
      text as of the text. So a text without escaped control characters of its own
      comes back as it was. */
  lemma {:induction false} UnescapeInverts(s: string)
    ensures Unescaped(Escaped(s)) == Unescaped(s)
    decreases |s|
  {
    hide Escaped, EscapeAt, EscapeChar;
    if s == "" {
      NothingEscaped();
    } else {
      EscapedCons(s);
      if IsControl(s[0]) {
        EscapeReads(s[0], Escaped(s[1..]));
        UnescapeInverts(s[1..]);
        NoEscapeAtControl(s);
        assert Escaped(s)[|EscapeChar(s[0])|..] == Escaped(s[1..]);
      } else {
        PlainHead(s);
        EscapeAtAgrees(s);
        match EscapeAt(s)
        case Some(e) => UnescapeInverts(s[e.length..]);
        case None =>
          UnescapeInverts(s[1..]);
          assert Escaped(s)[1..] == Escaped(s[1..]);
      }
    }
  }

  lemma NothingEscaped()
    ensures Escaped("") == ""
  {}

  lemma NoEscapeAtControl(s: string)
    requires s != "" && IsControl(s[0])
    ensures EscapeAt(s) == None && EscapeChar(s[0]) != ""
  {}

  lemma PlainHead(s: string)
    requires s != "" && !IsControl(s[0])
    ensures EscapeChar(s[0]) == [s[0]]
  {}

  // ---- Wrappers ----

  predicate AllSpace(s: string) { forall i :: 0 <= i < |s| ==> IsWhitespace(s[i]) }

  lemma TrimStartExact(w: string, s: string)
    requires AllSpace(w) && s != "" && !IsWhitespace(s[0])
    ensures TrimStart(w + s) == s
  {
    hide IsWhitespace, TrimStart;
    var t := w + s;
    var k := |t| - |TrimStart(t)|;
    assert t[|w|] == s[0];
    assert k <= |w|;
    assert TrimStart(t)[0] == t[k];
    assert forall i :: 0 <= i < |w| ==> IsWhitespace(t[i]);
    assert t[|w|..] == s;
  }

  lemma TrimEndExact(s: string, w: string)
    requires AllSpace(w) && s != "" && !IsWhitespace(s[|s| - 1])
    ensures TrimEnd(s + w) == s
  {
    hide IsWhitespace, TrimEnd;
    var t := s + w;
    var k := |TrimEnd(t)|;
    assert t[|s| - 1] == s[|s| - 1];
    assert forall i :: |s| <= i < |t| ==> IsWhitespace(t[i]);
    assert k >= |s|;
    assert forall i :: 0 <= i < k ==> TrimEnd(t)[i] == t[i];
    assert t[..|s|] == s;
  }

  lemma TrimExact(v: string, s: string, w: string)
    requires AllSpace(v) && AllSpace(w) && s != "" && !IsWhitespace(s[0]) && !IsWhitespace(s[|s| - 1])
    ensures Trim(v + s + w) == s
  {
    hide TrimEnd, TrimStart;
    var x := v + s;
    assert x[|x| - 1] == s[|s| - 1];
    TrimEndExact(x, w);
    TrimStartExact(v, s);
  }

  lemma TickIsNoSpace()
    ensures !IsWhitespace('`') && !IsWhitespace('<') && !IsWhitespace('>') && !IsWhitespace('j') && !IsWhitespace('J')
  {}

  /** A code fence, tagged in lower or upper case, white space around it or not. */
  function Fenced(v: string, tag: string, body: string, w: string): string {
    v + ("```" + tag + body + "```") + w
  }

  lemma TicksComeOff(inner: string)
    ensures StripPrefix("```" + inner + "```", "```") == Some(inner + "```")
    ensures StripSuffix(inner + "```", "```") == Some(inner)
  {
    var t := "```" + inner + "```";
    assert t[..3] == "```" && t[3..] == inner + "```";
  }

  lemma FenceTrims(v: string, inner: string, w: string)
    requires AllSpace(v) && AllSpace(w)
    ensures Trim(v + ("```" + inner + "```") + w) == "```" + inner + "```"
  {
    hide IsWhitespace, Trim;
    TickIsNoSpace();
    TrimExact(v, "```" + inner + "```", w);
  }

  /** Out of a tagged fence comes its body, trimmed. */
  lemma FenceStripped(v: string, tag: string, body: string, w: string)
    requires AllSpace(v) && AllSpace(w) && (tag == "json" || tag == "JSON")
    ensures StripWrapper(Fenced(v, tag, body, w)) == Some(Trim(body))
  {
    hide IsWhitespace, TrimStart, TrimEnd, Trim, StripSuffix, StripPrefix;
    var inner := tag + body;
    assert "```" + tag + body + "```" == "```" + inner + "```";
    FenceTrims(v, inner, w);
    TicksComeOff(inner);
    TagComesOff(tag, body);
  }

  lemma TagComesOff(tag: string, body: string)
    requires tag == "json" || tag == "JSON"
    ensures TrimStart(tag + body) == tag + body
    ensures StripPrefix(tag + body, tag) == Some(body)
    ensures tag == "JSON" ==> StripPrefix(tag + body, "json") == None
  {
    hide IsWhitespace, TrimStart;
    TickIsNoSpace();
    var inner := tag + body;
    assert inner[0] == tag[0] && "" + inner == inner;
    TrimStartExact("", inner);
    assert inner[..4] == tag && inner[4..] == body;
  }

  /** Out of a fence without a tag comes its body as well. */
  lemma BareFenceStripped(v: string, body: string, w: string)
    requires AllSpace(v) && AllSpace(w)
    requires !("json" <= TrimStart(body)) && !("JSON" <= TrimStart(body))
    ensures StripWrapper(Fenced(v, "", body, w)) == Some(Trim(TrimStart(body)))
  {
    hide IsWhitespace, TrimStart, TrimEnd, Trim, StripSuffix;
    assert "```" + "" + body + "```" == "```" + body + "```";
    FenceTrims(v, body, w);
    TicksComeOff(body);
  }

  /** A name an element may have. */
  predicate IsTagName(name: string) {
    name != "" && forall i :: 0 <= i < |name| ==>
      'a' <= name[i] <= 'z' || 'A' <= name[i] <= 'Z' || '0' <= name[i] <= '9' || name[i] == '_' || name[i] == '-'
  }

  /** Attributes: nothing, or white space and then anything up to the bracket. */
  predicate AreAttributes(a: string) {
    (a == "" || IsWhitespace(a[0])) && forall i :: 0 <= i < |a| ==> a[i] != '>'
  }

  function Element(v: string, name: string, attributes: string, body: string, w: string): string {
    v + ("<" + name + attributes + ">" + body + "</" + name + ">") + w
  }

  lemma {:induction false} FindExact(s: string, c: char, rest: string)
    requires forall i :: 0 <= i < |s| ==> s[i] != c
    ensures Find(s + [c] + rest, c) == Some(|s|)
  {
    if s != "" {
      FindExact(s[1..], c, rest);
      assert (s + [c] + rest)[1..] == s[1..] + [c] + rest;
    }
  }

  lemma {:induction false} UntilSpaceExact(name: string, rest: string)
    requires (forall i :: 0 <= i < |name| ==> !IsWhitespace(name[i])) && (rest == "" || IsWhitespace(rest[0]))
    ensures UntilSpace(name + rest) == name
  {
    hide IsWhitespace;
    if name == "" {
      assert name + rest == rest;
    } else {
      UntilSpaceExact(name[1..], rest);
      assert (name + rest)[1..] == name[1..] + rest;
      assert [name[0]] + name[1..] == name;
    }
  }

  lemma TagNameIsSolid(name: string)
    requires IsTagName(name)
    ensures forall i :: 0 <= i < |name| ==> IsTagChar(name[i]) && !IsWhitespace(name[i]) && name[i] != '>'
    ensures name[0] != '/'
  {}

  lemma WordOfTag(name: string, attributes: string)
    requires IsTagName(name) && AreAttributes(attributes)
    ensures FirstWord(name + attributes) == name
  {
    hide IsWhitespace, TrimStart;
    TagNameIsSolid(name);
    UntilSpaceExact(name, attributes);
    var s := name + attributes;
    assert s[0] == name[0] && "" + s == s;
    TrimStartExact("", s);
  }

  lemma ElementBody(name: string, attributes: string, body: string)
    requires IsTagName(name) && AreAttributes(attributes)
    ensures StripTag("<" + (name + attributes) + ">" + (body + ("</" + name + ">"))) == Some(Trim(body))
  {
    hide IsWhitespace, TrimStart, TrimEnd, Trim, FirstWord, IsTagChar, Find;
    TagNameIsSolid(name);
    var head, close := name + attributes, "</" + name + ">";
    var tail := body + close;
    var t := "<" + head + ">" + tail;
    FindExact("<" + head, '>', tail);
    var e := |head| + 1;
    assert t[1..e] == head && t[e + 1..] == tail;
    WordOfTag(name, attributes);
    CloseComesOff(body, close);
  }

  lemma CloseComesOff(body: string, close: string)
    requires close != "" && close[|close| - 1] == '>'
    ensures StripSuffix(TrimEnd(body + close), close) == Some(body)
  {
    hide IsWhitespace, TrimEnd;
    TickIsNoSpace();
    var tail := body + close;
    assert tail + "" == tail && tail[|tail| - 1] == '>';
    TrimEndExact(tail, "");
  }

  /** Out of an element comes its body, trimmed. */
  lemma ElementStripped(v: string, name: string, attributes: string, body: string, w: string)
    requires AllSpace(v) && AllSpace(w) && IsTagName(name) && AreAttributes(attributes)
    ensures StripWrapper(Element(v, name, attributes, body, w)) == Some(Trim(body))
  {
    hide IsWhitespace, Trim, StripTag, IsTagName, AreAttributes, AllSpace;
    TickIsNoSpace();
    var t := "<" + name + attributes + ">" + body + "</" + name + ">";
    assert t == "<" + (name + attributes) + ">" + (body + ("</" + name + ">"));
    TrimExact(v, t, w);
    ElementBody(name, attributes, body);
    NameBegins(name);
    assert t[0] == '<' && t[1] == name[0];
    assert !("```" <= t) && !("</" <= t);
  }

  lemma NameBegins(name: string)
    requires IsTagName(name)
    ensures name != "" && name[0] != '/'
  {}

  lemma TrimmedEnds(s: string)
    ensures Trim(s) == "" || !IsWhitespace(Trim(s)[|Trim(s)| - 1])
  {
    hide IsWhitespace, TrimStart, TrimEnd;
    var t := TrimEnd(s);
    assert Trim(s) == t[|t| - |Trim(s)|..];
  }

  /** Whatever comes out was wrapped: in a fence, or in an element of a proper name. */
  lemma OnlyWrappersStripped(args: string)
    requires StripWrapper(args).Some?
    ensures var t := Trim(args);
            || ("```" <= t && |t| >= 6 && t[|t| - 3..] == "```")
            || exists name: string ::
                 IsTagName(name) && ("<" <= t) && |name| + 3 <= |t| && t[|t| - |name| - 3..] == "</" + name + ">"
  {
    hide Trim, StripTag, StripFence, IsWhitespace, IsTagName;
    var t := Trim(args);
    TrimmedEnds(args);
    if "```" <= t {
      FenceCloses(t[3..]);
      assert t == "```" + t[3..];
    } else {
      var name := ElementHasName(t);
    }
  }

  lemma FenceCloses(rest: string)
    requires StripFence(rest).Some?
    ensures |rest| >= 3 && rest[|rest| - 3..] == "```"
  {
    hide TrimStart, Trim;
  }

  lemma ElementHasName(t: string) returns (name: string)
    requires "<" <= t && StripTag(t).Some? && !IsWhitespace(t[|t| - 1])
    ensures IsTagName(name) && |name| + 3 <= |t| && t[|t| - |name| - 3..] == "</" + name + ">"
  {
    hide TrimStart, Trim, FirstWord, TrimEnd, IsWhitespace;
    var e := Find(t, '>').value;
    name := FirstWord(t[1..e]);
    var close := "</" + name + ">";
    var rest := t[e + 1..];
    assert rest != "" ==> rest[|rest| - 1] == t[|t| - 1];
    assert rest + "" == rest;
    if rest != "" { TrimEndExact(rest, ""); }
    assert IsTagName(name);
    assert t[|t| - |close|..] == rest[|rest| - |close|..];
  }

  /** Arguments in a fence or an element are worth what their body is worth: if the
      wrapped text does not parse and its body does, the result is that of the body. */
  lemma WrappedParsesAsBare(args: string, parse: Parser)
    requires args != "" && parse(args).None? && StripWrapper(args).Some?
    ensures var body := StripWrapper(args).value;
            && (parse(body).Some? && body != "" ==> ParseToolArguments(args, parse) == ParseToolArguments(body, parse))
            && (parse(body).None? && !LooksTruncated(body) && parse(Escaped(body)).Some? ==>
                  ParseToolArguments(args, parse) == Some(Unwrapped(parse(Escaped(body)).value, parse)))
  {
    hide StripWrapper, Unwrapped, SafelyParse, LooksTruncated;
    var body := StripWrapper(args).value;
    if !LooksTruncated(body) { SafelyParseInventsNothing(body, parse); }
  }

  /** What looks truncated and does not parse, as it is or unwrapped, is refused. */
  lemma TruncatedIsRefused(args: string, parse: Parser)
    requires args != "" && parse(args).None? && LooksTruncated(args)
    requires StripWrapper(args).Some? ==>
      parse(StripWrapper(args).value).None? && LooksTruncated(StripWrapper(args).value)
    ensures ParseToolArguments(args, parse) == None
  {
    hide StripWrapper, LooksTruncated;
  }

  // ---- Arguments quoted more than once ----

  /** Each text, trimmed, is a string literal for the next. */
  ghost predicate Layers(ts: seq<string>, parse: Parser) {
    forall i, j :: 0 <= i && j == i + 1 && j < |ts| ==> parse(Trim(ts[i])) == Some(Str(ts[j]))
  }

  /** A string is unwrapped to the object it quotes, if that takes at most three
      readings; otherwise it stays the string it is. */
  lemma UnwrappedExact(t: string, parse: Parser) returns (ts: seq<string>)
    ensures 1 <= |ts| <= 3 && ts[0] == t && Layers(ts, parse)
    ensures match parse(Trim(ts[|ts| - 1]))
            case Some(Object(m)) => Unwrapped(Str(t), parse) == Object(m)
            case Some(Str(_)) => |ts| == 3 && Unwrapped(Str(t), parse) == Str(t)
            case _ => Unwrapped(Str(t), parse) == Str(t)
  {
    hide Trim;
    ts := [t];
    var x := parse(Trim(t));
    if x.Some? && x.value.Str? {
      var u := x.value.text;
      ts := [t, u];
      var y := parse(Trim(u));
      if y.Some? && y.value.Str? { ts := [t, u, y.value.text]; }
    }
    ThreeReadings(t, parse);
  }

  lemma ThreeReadings(t: string, parse: Parser)
    ensures Unwrapped(Str(t), parse) ==
            match parse(Trim(t))
            case Some(Object(m)) => Object(m)
            case Some(Str(u)) =>
              (match parse(Trim(u))
               case Some(Object(m)) => Object(m)
               case Some(Str(v)) =>
                 (match parse(Trim(v)) case Some(Object(m)) => Object(m) case _ => Str(t))
               case _ => Str(t))
            case _ => Str(t)
  {
    hide Trim;
    var x := parse(Trim(t));
    if x.Some? && x.value.Str? {
      var u := x.value.text;
      assert Unwrapped(Str(t), parse) == UnwrapFrom(Trim(u), Str(t), parse, 2);
      var y := parse(Trim(u));
      if y.Some? && y.value.Str? {
        assert UnwrapFrom(Trim(u), Str(t), parse, 2) == UnwrapFrom(Trim(y.value.text), Str(t), parse, 1);
      }
    }
  }

  /** Only strings are unwrapped, and no arguments at all are an empty object. */
  lemma OnlyStringsUnwrapped(v: Value, parse: Parser)
    ensures !v.Str? ==> Unwrapped(v, parse) == v
    ensures ParseToolArguments("", parse) == Some(Object(0))
  {}

  /** `safely_parse_json` takes the first that parses of the text, the text completed,
      the text escaped, and the text escaped and then completed. */
  lemma SafelyParseTries(s: string, parse: Parser)
    ensures SafelyParse(s, parse) == None <==>
            && parse(s) == None && parse(Repaired(s)) == None
            && parse(Escaped(s)) == None && parse(Repaired(Escaped(s))) == None
    ensures parse(s).Some? ==> SafelyParse(s, parse) == parse(s)
    ensures parse(s).None? && parse(Repaired(s)).Some? ==> SafelyParse(s, parse) == parse(Repaired(s))
    ensures parse(s).None? && parse(Repaired(s)).None? && parse(Escaped(s)).Some? ==>
              SafelyParse(s, parse) == parse(Escaped(s))
  {}
}
