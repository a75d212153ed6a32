/** Repair and truncation detection for JSON that a model wrote, and the rule that
    tool arguments are never completed by guesswork (json.rs). The strict parser
    is a parameter: the results hold for every parser. */
module JsonRepair {
  import opened Common
  import opened Text

  // ---- The scanner: strings, escapes and open delimiters ----

  /** Inside a string or not; after a backslash or not; the closers still owed,
      innermost last. */
  datatype Scan = Scan(inString: bool, escapeNext: bool, closers: seq<char>)

  const START := Scan(false, false, [])

  predicate IsCloser(c: char) { c == '}' || c == ']' }

  predicate Mismatch(st: Scan, c: char) {
    !st.inString && IsCloser(c) && (st.closers == [] || st.closers[|st.closers| - 1] != c)
  }

  function Step(st: Scan, c: char): Scan {
    if st.inString then
      if st.escapeNext then st.(escapeNext := false)
      else if c == '\\' then st.(escapeNext := true)
      else if c == '"' then st.(inString := false)
      else st
    else if c == '"' then st.(inString := true)
    else if c == '{' then st.(closers := st.closers + ['}'])
    else if c == '[' then st.(closers := st.closers + [']'])
    else if IsCloser(c) && !Mismatch(st, c) then st.(closers := st.closers[..|st.closers| - 1])
    else st
  }

  function Run(st: Scan, s: string): Scan {
    if s == "" then st else Step(Run(st, s[..|s| - 1]), s[|s| - 1])
  }

  /** Some closing delimiter of `s` closes nothing. */
  predicate HasMismatch(st: Scan, s: string) {
    s != "" && (HasMismatch(st, s[..|s| - 1]) || Mismatch(Run(st, s[..|s| - 1]), s[|s| - 1]))
  }

  lemma {:induction false} RunConcat(st: Scan, s: string, t: string)
    ensures Run(st, s + t) == Run(Run(st, s), t)
    ensures HasMismatch(st, s + t) <==> HasMismatch(st, s) || HasMismatch(Run(st, s), t)
  {
    if t == "" {
      assert s + t == s;
    } else {
      assert (s + t)[..|s + t| - 1] == s + t[..|t| - 1];
      RunConcat(st, s, t[..|t| - 1]);
    }
  }

  lemma RunOne(st: Scan, c: char)
    ensures Run(st, [c]) == Step(st, c) && (HasMismatch(st, [c]) <==> Mismatch(st, c))
  {
    assert [c][..0] == "";
    assert Run(st, "") == st;
  }

  predicate Sane(st: Scan) {
    (st.escapeNext ==> st.inString) && forall i :: 0 <= i < |st.closers| ==> IsCloser(st.closers[i])
  }

  lemma {:induction false} RunSane(st: Scan, s: string)
    requires Sane(st)
    ensures Sane(Run(st, s))
  {
    if s != "" { RunSane(st, s[..|s| - 1]); }
  }

  // ---- repair_truncated_json ----

  function Reversed(s: string): string {
    if s == "" then "" else [s[|s| - 1]] + Reversed(s[..|s| - 1])
  }

  /** What has to follow so that nothing stays open. */
  function Completion(st: Scan): string {
    (if st.inString then (if st.escapeNext then "\\" else "") + "\"" else "") + Reversed(st.closers)
  }

  function Repaired(s: string): string { s + Completion(Run(START, s)) }

  lemma RunStep(s: string, i: nat)
    requires i < |s|
    ensures Run(START, s[..i + 1]) == Step(Run(START, s[..i]), s[i])
  {
    hide Step;
    assert s[..i + 1][..i] == s[..i];
  }

  /** What one character does to the scanner's variables. */
  method ScanChar(inString: bool, escapeNext: bool, closers: seq<char>, c: char)
    returns (inString': bool, escapeNext': bool, closers': seq<char>)
    ensures Scan(inString', escapeNext', closers') == Step(Scan(inString, escapeNext, closers), c)
  {
    inString', escapeNext', closers' := inString, escapeNext, closers;
    if inString {
      if escapeNext {
        escapeNext' := false;
        return;
      }
      if c == '\\' { escapeNext' := true; } else if c == '"' { inString' := false; }
      return;
    }
    if c == '"' {
      inString' := true;
    } else if c == '{' {
      closers' := closers + ['}'];
    } else if c == '[' {
      closers' := closers + [']'];
    } else if (c == '}' || c == ']') && closers != [] && closers[|closers| - 1] == c {
      closers' := closers[..|closers| - 1];
    }
  }

  method RepairTruncatedJson(s: string) returns (repaired: string)
    ensures repaired == Repaired(s)
  {
    hide Run, Step;
    repaired := "";
    var inString, escapeNext := false, false;
    var closers: seq<char> := [];
    var i := 0;
    NothingRun();
    assert s[..0] == "";
    while i < |s|
      invariant 0 <= i <= |s| && repaired == s[..i]
      invariant Scan(inString, escapeNext, closers) == Run(START, s[..i])
    {
      RunStep(s, i);
      repaired := repaired + [s[i]];
      inString, escapeNext, closers := ScanChar(inString, escapeNext, closers, s[i]);
      i := i + 1;
    }
    assert s[..i] == s;
    if inString {
      if escapeNext { repaired := repaired + "\\"; }
      repaired := repaired + "\"";
    }
    repaired := CloseAll(repaired, closers);
  }

  lemma NothingRun()
    ensures Run(START, "") == START
  {}

  /** The closers still owed, innermost first. */
  method CloseAll(text: string, closers0: seq<char>) returns (repaired: string)
    ensures repaired == text + Reversed(closers0)
  {
    repaired := text;
    var closers := closers0;
    while closers != []
      invariant text + Reversed(closers0) == repaired + Reversed(closers)
      decreases |closers|
    {
      var n := |closers| - 1;
      assert repaired + ([closers[n]] + Reversed(closers[..n])) == (repaired + [closers[n]]) + Reversed(closers[..n]);
      repaired := repaired + [closers[n]];
      closers := closers[..n];
    }
    assert repaired + "" == repaired;
  }

  lemma {:induction false} ClosingAll(cs: seq<char>)
    requires forall i :: 0 <= i < |cs| ==> IsCloser(cs[i])
    ensures Run(Scan(false, false, cs), Reversed(cs)) == START
    ensures !HasMismatch(Scan(false, false, cs), Reversed(cs))
  {
    if cs != [] {
      var n := |cs| - 1;
      var st := Scan(false, false, cs);
      RunConcat(st, [cs[n]], Reversed(cs[..n]));
      RunOne(st, cs[n]);
      ClosingAll(cs[..n]);
    }
  }

  /** The completion leaves the scanner with nothing open and adds no mismatch. */
  lemma CompletionCloses(st: Scan)
    requires Sane(st)
    ensures Run(st, Completion(st)) == START && !HasMismatch(st, Completion(st))
  {
    var open := Scan(false, false, st.closers);
    var a := if st.inString && st.escapeNext then "\\" else "";
    var b := if st.inString then "\"" else "";
    assert Completion(st) == (a + b) + Reversed(st.closers);
    RunConcat(st, a + b, Reversed(st.closers));
    RunConcat(st, a, b);
    RunOne(st, '\\');
    RunOne(Run(st, a), '"');
    assert Run(st, a + b) == open && !HasMismatch(st, a + b);
    ClosingAll(st.closers);
  }

  /** Repair extends its input, closes everything, and is idempotent. */
  lemma RepairCloses(s: string)
    ensures s <= Repaired(s)
    ensures Run(START, Repaired(s)) == START
    ensures HasMismatch(START, Repaired(s)) <==> HasMismatch(START, s)
    ensures Repaired(Repaired(s)) == Repaired(s)
  {
    var st := Run(START, s);
    RunSane(START, s);
    CompletionCloses(st);
    RunConcat(START, s, Completion(st));
    assert Completion(START) == "";
    assert Repaired(s) + "" == Repaired(s);
  }

  // ---- looks_truncated ----

  predicate LooksTruncated(s: string) {
    var t := TrimEnd(s);
    var st := Run(START, t);
    t != "" && (HasMismatch(START, t) || st.inString || st.escapeNext || st.closers != [])
  }

  lemma ScanStep(s: string, i: nat)
    requires i < |s|
    ensures Run(START, s[..i + 1]) == Step(Run(START, s[..i]), s[i])
    ensures HasMismatch(START, s[..i + 1]) <==> HasMismatch(START, s[..i]) || Mismatch(Run(START, s[..i]), s[i])
  {
    assert s[..i + 1][..i] == s[..i];
  }

  method LooksTruncatedLoop(args: string) returns (r: bool)
    ensures r == LooksTruncated(args)
  {
    hide Run, HasMismatch;
    var trimmed := TrimEnd(args);
    if trimmed == "" { return false; }
    var inString, escapeNext := false, false;
    var depth: seq<char> := [];
    var i := 0;
    NothingScanned();
    assert trimmed[..0] == "";
    while i < |trimmed|
      invariant 0 <= i <= |trimmed|
      invariant Scan(inString, escapeNext, depth) == Run(START, trimmed[..i])
      invariant !HasMismatch(START, trimmed[..i])
    {
      var c := trimmed[i];
      ScanStep(trimmed, i);
      if inString {
        if escapeNext { escapeNext := false; }
        else if c == '\\' { escapeNext := true; }
        else if c == '"' { inString := false; }
      } else if c == '"' {
        inString := true;
      } else if c == '{' {
        depth := depth + ['}'];
      } else if c == '[' {
        depth := depth + [']'];
      } else if c == '}' || c == ']' {
        if depth != [] && depth[|depth| - 1] == c {
          depth := depth[..|depth| - 1];
        } else {
          MismatchStays(trimmed, i + 1);
          return true;
        }
      }
      i := i + 1;
    }
    assert trimmed[..i] == trimmed;
    return inString || escapeNext || depth != [];
  }

  lemma NothingScanned()
    ensures Run(START, "") == START && !HasMismatch(START, "")
  {}

  lemma MismatchStays(s: string, n: nat)
    requires n <= |s| && HasMismatch(START, s[..n])
    ensures HasMismatch(START, s)
  {
    assert s == s[..n] + s[n..];
    RunConcat(START, s[..n], s[n..]);
  }

  /** White space can only use up a pending escape. */
  lemma {:induction false} SpaceIsIdle(st: Scan, w: string)
    requires forall i :: 0 <= i < |w| ==> IsWhitespace(w[i])
    ensures var r := Run(st, w);
            r.inString == st.inString && r.closers == st.closers && !HasMismatch(st, w)
  {
    if w != "" { SpaceIsIdle(st, w[..|w| - 1]); }
  }

  /** Trimming does not matter to the verdict: a text looks truncated exactly when
      a closer closes nothing, or a string or a delimiter is still open. */
  lemma TruncationVerdict(s: string)
    ensures LooksTruncated(s) <==>
            HasMismatch(START, s) || Run(START, s).inString || Run(START, s).closers != []
  {
    var t := TrimEnd(s);
    var w := s[|t|..];
    assert s == t + w;
    RunConcat(START, t, w);
    RunSane(START, t);
    SpaceIsIdle(Run(START, t), w);
    assert t == "" ==> Run(START, t) == START;
  }

  /** What does not look truncated needs no repair and gets none; and a repaired
      text looks truncated exactly when some closer of the input closed nothing. */
  lemma RepairLeavesCompleteTextAlone(s: string)
    ensures !LooksTruncated(s) ==> Repaired(s) == s
    ensures LooksTruncated(Repaired(s)) <==> HasMismatch(START, s)
  {
    TruncationVerdict(s);
    RunSane(START, s);
    if !LooksTruncated(s) {
      assert Completion(Run(START, s)) == "";
      assert s + "" == s;
    }
    RepairCloses(s);
    TruncationVerdict(Repaired(s));
  }

  // ---- json_escape_control_chars_in_string ----

  function HexDigit(n: nat): char
    requires n < 16
  {
    "0123456789abcdef"[n]
  }

  function EscapeChar(c: char): string {
    if c as int >= 0x20 then [c]
    else if c as int == 0x08 then "\\b"
    else if c as int == 0x0C then "\\f"
    else if c == '\n' then "\\n"
    else if c == '\r' then "\\r"
    else if c == '\t' then "\\t"
    else "\\u00" + [HexDigit(c as int / 16), HexDigit(c as int % 16)]
  }

  function Escaped(s: string): string {
    if s == "" then "" else Escaped(s[..|s| - 1]) + EscapeChar(s[|s| - 1])
  }

  method EscapeControlChars(s: string) returns (r: string)
    ensures r == Escaped(s)
  {
    r := "";
    var i := 0;
    while i < |s|
      invariant 0 <= i <= |s| && r == Escaped(s[..i])
    {
      assert s[..i + 1][..i] == s[..i];
      r := r + EscapeChar(s[i]);
      i := i + 1;
    }
    assert s[..i] == s;
  }

  /** A character the scanner passes over in any state, except that it uses up a
      pending escape. */
  predicate Inert(c: char) {
    c != '"' && c != '\\' && c != '{' && c != '[' && !IsCloser(c)
  }

  lemma {:induction false} InertRun(st: Scan, s: string)
    requires !st.escapeNext && forall i :: 0 <= i < |s| ==> Inert(s[i])
    ensures Run(st, s) == st && !HasMismatch(st, s)
  {
    if s != "" { InertRun(st, s[..|s| - 1]); }
  }

  lemma HexIsInert(n: nat)
    requires n < 16
    ensures Inert(HexDigit(n))
  {
    if n < 10 {
      assert '0' <= HexDigit(n) <= '9';
    } else {
      assert 'a' <= HexDigit(n) <= 'f';
    }
  }

  /** A control character is replaced by a backslash and harmless characters. */
  lemma EscapeShape(c: char)
    requires c as int < 0x20
    ensures |EscapeChar(c)| >= 2 && EscapeChar(c)[0] == '\\'
    ensures forall i :: 1 <= i < |EscapeChar(c)| ==> Inert(EscapeChar(c)[i])
  {
    HexIsInert(c as int / 16);
    HexIsInert(c as int % 16);
  }

  /** A backslash and harmless characters do to the scanner what one harmless
      character does. */
  lemma BackslashIsIdle(st: Scan, e: string)
    requires Sane(st) && |e| >= 2 && e[0] == '\\'
    requires forall i :: 1 <= i < |e| ==> Inert(e[i])
    ensures Run(st, e) == st.(escapeNext := false) && !HasMismatch(st, e)
  {
    hide Run, HasMismatch;
    var head, tail := e[..2], e[2..];
    assert e == head + tail && head == [e[0]] + [e[1]];
    RunConcat(st, head, tail);
    RunConcat(st, [e[0]], [e[1]]);
    RunOne(st, e[0]);
    RunOne(Step(st, e[0]), e[1]);
    InertRun(st.(escapeNext := false), tail);
  }

  /** Escaping one character leaves the scanner where the character would have. */
  lemma EscapeCharScans(st: Scan, c: char)
    requires Sane(st)
    ensures Run(st, EscapeChar(c)) == Step(st, c)
    ensures HasMismatch(st, EscapeChar(c)) <==> Mismatch(st, c)
  {
    hide Run, HasMismatch;
    if c as int >= 0x20 {
      RunOne(st, c);
    } else {
      EscapeShape(c);
      BackslashIsIdle(st, EscapeChar(c));
    }
  }

  /** Escaping control characters preserves everything the scanner sees. */
  lemma {:induction false} EscapePreservesScan(s: string)
    ensures Run(START, Escaped(s)) == Run(START, s)
    ensures HasMismatch(START, Escaped(s)) <==> HasMismatch(START, s)
  {
    if s != "" {
      var n := |s| - 1;
      EscapePreservesScan(s[..n]);
      RunSane(START, s[..n]);
      RunConcat(START, Escaped(s[..n]), EscapeChar(s[n]));
      EscapeCharScans(Run(START, s[..n]), s[n]);
    }
  }

  lemma EscapePreservesVerdict(s: string)
    ensures LooksTruncated(Escaped(s)) == LooksTruncated(s)
  {
    TruncationVerdict(s);
    TruncationVerdict(Escaped(s));
    EscapePreservesScan(s);
  }

  // ---- Parsing, relative to a strict parser ----

  datatype Value = Object(members: nat) | Str(text: string) | Other(data: nat)

  const EMPTY_OBJECT := Object(0)

  type Parser = string -> Option<Value>

  /** `safely_parse_json`. */
  function SafelyParse(s: string, parse: Parser): Option<Value> {
    if parse(s).Some? then parse(s)
    else if parse(Repaired(s)).Some? then parse(Repaired(s))
    else if parse(Escaped(s)).Some? then parse(Escaped(s))
    else parse(Repaired(Escaped(s)))
  }

  function Trim(s: string): string { TrimStart(TrimEnd(s)) }

  function UnwrapFrom(current: string, value: Value, parse: Parser, rounds: nat): Value
    decreases rounds
  {
    if rounds == 0 then value
    else match parse(current)
      case Some(Object(m)) => Object(m)
      case Some(Str(t)) => UnwrapFrom(Trim(t), value, parse, rounds - 1)
      case _ => value
  }

  /** `unwrap_double_encoded_object`: at most three layers of quoting come off. */
  function Unwrapped(value: Value, parse: Parser): Value {
    match value
    case Str(t) => UnwrapFrom(Trim(t), value, parse, 3)
    case _ => value
  }

  function StripPrefix(s: string, p: string): Option<string> {
    if p <= s then Some(s[|p|..]) else None
  }

  function StripSuffix(s: string, p: string): Option<string> {
    if |p| <= |s| && s[|s| - |p|..] == p then Some(s[..|s| - |p|]) else None
  }

  function Find(s: string, c: char): Option<nat> {
    if s == "" then None
    else if s[0] == c then Some(0)
    else match Find(s[1..], c)
      case None => None
      case Some(i) => Some(i + 1)
  }

  function FirstWord(s: string): string { UntilSpace(TrimStart(s)) }

  function UntilSpace(s: string): string {
    if s == "" || IsWhitespace(s[0]) then "" else [s[0]] + UntilSpace(s[1..])
  }

  predicate IsTagChar(c: char) {
    IsAsciiAlpha(c) || '0' <= c <= '9' || c == '_' || c == '-'
  }

  function StripFence(rest: string): Option<string> {
    match StripSuffix(rest, "```")
    case None => None
    case Some(b) =>
      var body := TrimStart(b);
      match StripPrefix(body, "json")
      case Some(x) => Some(Trim(x))
      case None =>
        match StripPrefix(body, "JSON")
        case Some(x) => Some(Trim(x))
        case None => Some(Trim(body))
  }

  function StripTag(t: string): Option<string> {
    match Find(t, '>')
    case None => None
    case Some(e) =>
      if !(1 <= e < |t|) then None
      else
        var name := FirstWord(t[1..e]);
        if name == "" || exists i :: 0 <= i < |name| && !IsTagChar(name[i]) then None
        else match StripSuffix(TrimEnd(t[e + 1..]), "</" + name + ">")
          case None => None
          case Some(body) => Some(Trim(body))
  }

  /** `strip_json_wrapper`: a code fence or an XML-like element around the body. */
  function StripWrapper(args: string): Option<string> {
    var t := Trim(args);
    match StripPrefix(t, "```")
    case Some(rest) => StripFence(rest)
    case None => if "<" <= t && !("</" <= t) then StripTag(t) else None
  }

  function OrElse(a: Option<Value>, b: Option<Value>): Option<Value> { if a.Some? then a else b }

  function Finish(v: Option<Value>, parse: Parser): Option<Value> {
    match v
    case None => None
    case Some(x) => Some(Unwrapped(x, parse))
  }

  /** The two attempts `parse_tool_arguments` makes at one text. */
  function Attempt(s: string, parse: Parser): Option<Value> {
    OrElse(parse(s), if !LooksTruncated(s) then SafelyParse(s, parse) else None)
  }

  /** `parse_tool_arguments`. */
  function ParseToolArguments(args: string, parse: Parser): Option<Value> {
    if args == "" then Some(EMPTY_OBJECT)
    else if parse(args).Some? then Finish(parse(args), parse)
    else
      var inner := match StripWrapper(args) case None => None case Some(b) => Attempt(b, parse);
      if inner.Some? then Finish(inner, parse)
      else if !LooksTruncated(args) then Finish(SafelyParse(args, parse), parse)
      else None
  }

  /** The same without any repair: a text is parsed strictly, or strictly after its
      control characters are escaped, and the latter only if nothing is left open. */
  function WithoutRepair(s: string, parse: Parser): Option<Value> {
    OrElse(parse(s), if !LooksTruncated(s) then parse(Escaped(s)) else None)
  }

  function ParseWithoutRepair(args: string, parse: Parser): Option<Value> {
    if args == "" then Some(EMPTY_OBJECT)
    else if parse(args).Some? then Finish(parse(args), parse)
    else
      var inner := match StripWrapper(args) case None => None case Some(b) => WithoutRepair(b, parse);
      Finish(OrElse(inner, WithoutRepair(args, parse)), parse)
  }

  lemma SafelyParseInventsNothing(s: string, parse: Parser)
    requires !LooksTruncated(s)
    ensures SafelyParse(s, parse) == OrElse(parse(s), parse(Escaped(s)))
  {
    RepairLeavesCompleteTextAlone(s);
    EscapePreservesVerdict(s);
    RepairLeavesCompleteTextAlone(Escaped(s));
  }

  /** Tool arguments are never completed: for every strict parser, taking the
      repair out altogether changes no result. */
  lemma ArgumentsAreNeverCompleted(args: string, parse: Parser)
    ensures ParseToolArguments(args, parse) == ParseWithoutRepair(args, parse)
  {
    hide SafelyParse, StripWrapper, Unwrapped;
    if !LooksTruncated(args) { SafelyParseInventsNothing(args, parse); }
    match StripWrapper(args)
    case None =>
    case Some(b) => if !LooksTruncated(b) { SafelyParseInventsNothing(b, parse); }
  }
}
