/** The incremental filter of thinking.rs as an object: a hold-back buffer, a
    flag and a nesting depth, updated in place by every push. */
module ThinkFilters {
  import opened Common
  import opened Text
  import opened ThinkTags
  import opened ThinkScan
  import opened ThinkCuts

  datatype BufferEvent =
    | TagEvent(pos: nat, end: nat, kind: TagKind)
    | OversizedTag(end: nat)
    | PartialAt(pos: nat)
    | NoEvent

  method ContainsUnquotedGt(text: string) returns (found: bool)
    ensures found == HasGt(text, Unquoted)
  {
    var quote: Quote := Unquoted;
    var i := 0;
    while i < |text|
      invariant 0 <= i <= |text|
      invariant HasGt(text, Unquoted) == HasGt(text[i..], quote)
    {
      var byte := text[i];
      assert text[i..][1..] == text[i + 1..];
      if quote.Inside? {
        if byte == quote.mark { quote := Unquoted; }
      } else if byte == '"' || byte == '\'' {
        quote := Inside(byte);
      } else if byte == '>' {
        return true;
      }
      i := i + 1;
    }
    return false;
  }

  method AlphaEnd(buffer: string, from: nat) returns (idx: nat)
    requires from <= |buffer|
    ensures idx == from + AlphaRun(buffer[from..])
  {
    idx := from;
    while idx < |buffer| && IsAsciiAlpha(buffer[idx])
      invariant from <= idx <= |buffer|
      invariant AlphaRun(buffer[from..]) == (idx - from) + AlphaRun(buffer[idx..])
    {
      assert buffer[idx..][1..] == buffer[idx + 1..];
      idx := idx + 1;
    }
  }

  method SpaceEnd(buffer: string, from: nat) returns (idx: nat)
    requires from <= |buffer|
    ensures idx == from + SpaceRun(buffer[from..])
  {
    idx := from;
    while idx < |buffer| && IsAsciiWhitespace(buffer[idx])
      invariant from <= idx <= |buffer|
      invariant SpaceRun(buffer[from..]) == (idx - from) + SpaceRun(buffer[idx..])
    {
      assert buffer[idx..][1..] == buffer[idx + 1..];
      idx := idx + 1;
    }
  }

  /** The attribute loop: `idx` runs to the first `>` outside quotes. */
  method AttributeEnd(buffer: string, from: nat) returns (found: Option<(TagKind, nat)>)
    requires from <= |buffer|
    ensures match Attributes(buffer[from..], Unquoted, false)
            case NoTag => found == None
            case Found(k, n) => found == Some((k, from + n))
  {
    hide Attributes;
    var quote: Quote := Unquoted;
    var lastNonWs: Option<char> := None;
    var idx := from;
    while idx < |buffer|
      invariant from <= idx <= |buffer|
      invariant Attributes(buffer[from..], Unquoted, false)
             == Longer(Attributes(buffer[idx..], quote, lastNonWs == Some('/')), idx - from)
    {
      var byte := buffer[idx];
      assert buffer[idx..][1..] == buffer[idx + 1..];
      AttributesStep(buffer[idx..], quote, lastNonWs == Some('/'));
      if quote.Inside? {
        if byte == quote.mark { quote := Unquoted; }
      } else if byte == '"' || byte == '\'' {
        quote := Inside(byte);
        lastNonWs := Some(byte);
      } else if byte == '>' {
        var kind := if lastNonWs == Some('/') then SelfClosing else Open;
        return Some((kind, idx + 1));
      } else if !IsAsciiWhitespace(byte) {
        lastNonWs := Some(byte);
      }
      idx := idx + 1;
    }
    NoAttributes(buffer[idx..], quote, lastNonWs == Some('/'));
    return None;
  }

  /** The name of the tag at `start`, in the coordinates of the buffer. */
  method TagName(buffer: string, start: nat) returns (isClose: bool, nameStart: nat, idx: nat)
    requires start < |buffer|
    ensures var s := buffer[start..];
            && isClose == IsCloseShape(s) && nameStart == start + NameStart(s) && idx == start + NameEnd(s)
            && start < nameStart <= idx <= |buffer|
            && buffer[nameStart..idx] == Name(s) && buffer[idx..] == s[NameEnd(s)..]
  {
    ghost var s := buffer[start..];
    idx := start + 1;
    isClose := idx < |buffer| && buffer[idx] == '/';
    if isClose { idx := idx + 1; }
    nameStart := idx;
    assert buffer[nameStart..] == s[nameStart - start..];
    idx := AlphaEnd(buffer, idx);
  }

  method ParseThinkTag(buffer: string, start: nat) returns (tag: Option<(TagKind, nat)>)
    requires start <= |buffer|
    ensures match ParseTag(buffer[start..])
            case NoTag => tag == None
            case Found(k, n) => tag == Some((k, start + n))
  {
    hide Held, IsThinkName, NameStart, NameEnd, Name, Attributes;
    ghost var s := buffer[start..];
    if start >= |buffer| || buffer[start] != '<' {
      return None;
    }
    var isClose, nameStart, idx := TagName(buffer, start);
    if !IsThinkName(buffer[nameStart..idx]) { return None; }
    if isClose {
      ghost var e := idx;
      idx := SpaceEnd(buffer, idx);
      assert idx < |buffer| ==> s[idx - start] == buffer[idx];
      if idx < |buffer| && buffer[idx] == '>' { return Some((Close, idx + 1)); }
      return None;
    }
    assert idx < |buffer| ==> s[idx - start] == buffer[idx];
    if idx >= |buffer| || !OpenBoundary(buffer[idx]) { return None; }
    tag := AttributeEnd(buffer, idx);
  }

  /** `e` is the first event in `b`: everything before it is emitted one
      character at a time, and at its place the scan does what `e` says. */
  ghost predicate FirstEvent(e: BufferEvent, b: string, d: nat) {
    match e
    case TagEvent(pos, end, kind) =>
      pos < end <= |b| && AllEmitted(b, pos, d) && LookAt(b[pos..], d) == Take(kind, end - pos)
    case OversizedTag(end) =>
      exists pos: nat :: pos < end <= |b| && AllEmitted(b, pos, d) && LookAt(b[pos..], d) == Emit(end - pos)
    case PartialAt(pos) => pos < |b| && AllEmitted(b, pos, d) && LookAt(b[pos..], d) == Hold
    case NoEvent => AllEmitted(b, |b|, d)
  }

  ghost predicate AllEmitted(b: string, n: nat, d: nat) {
    n <= |b| && forall i :: 0 <= i < n ==> LookAt(b[i..], d) == Emit(1)
  }

  method NextBufferEvent(buffer: string, insideThink: bool, ghost d: nat) returns (event: BufferEvent)
    requires insideThink == (d > 0)
    ensures FirstEvent(event, buffer, d)
  {
    hide ParseTag, Held, HasGt;
    var searchFrom := 0;
    while searchFrom < |buffer|
      invariant AllEmitted(buffer, searchFrom, d)
    {
      var pos := searchFrom;
      while pos < |buffer| && buffer[pos] != '<'
        invariant searchFrom <= pos <= |buffer|
        invariant AllEmitted(buffer, pos, d)
      {
        assert LookAt(buffer[pos..], d) == Emit(1);
        pos := pos + 1;
      }
      if pos == |buffer| { return NoEvent; }
      var suffix := buffer[pos..];
      var tag := ParseThinkTag(buffer, pos);
      if tag.Some? {
        var (kind, end) := tag.value;
        assert suffix[..end - pos] == buffer[pos..end];
        if Bytes(buffer[pos..end]) > CAP { return OversizedTag(end); }
        if insideThink || kind != Close { return TagEvent(pos, end, kind); }
      } else {
        HeldHasNoGt(suffix);
        var gt := ContainsUnquotedGt(suffix);
        if !gt && (OpenPartial(suffix) || ClosePartial(suffix)) { return PartialAt(pos); }
      }
      assert LookAt(buffer[pos..], d) == Emit(1);
      searchFrom := pos + 1;
    }
    return NoEvent;
  }

  lemma HeldHasNoGt(s: string)
    ensures Held(s) <==> !HasGt(s, Unquoted) && (OpenPartial(s) || ClosePartial(s))
  {}

  /** Emitting a run of characters moves the scan past them. */
  lemma {:induction false} ScanPastEmitted(b: string, n: nat, d: nat)
    requires AllEmitted(b, n, d)
    ensures Scan(b, d) == Before(Plains(b[..n], d > 0), Scan(b[n..], d))
    decreases n
  {
    hide LookAt;
    if n == 0 {
      assert b[0..] == b;
      assert Plains(b[..0], d > 0) + Scan(b, d).pieces == Scan(b, d).pieces;
    } else {
      assert b[0..] == b;
      ScanEmit(b, 1, d);
      forall i | 0 <= i < n - 1 ensures LookAt(b[1..][i..], d) == Emit(1) {
        assert b[1..][i..] == b[i + 1..];
      }
      ScanPastEmitted(b[1..], n - 1, d);
      assert b[1..][n - 1..] == b[n..];
      assert b[..n] == b[..1] + b[1..][..n - 1];
      PlainsConcat(b[..1], b[1..][..n - 1], d > 0);
      BeforeTwice(Plains(b[..1], d > 0), Plains(b[1..][..n - 1], d > 0), Scan(b[n..], d));
    }
  }

  lemma BeforeTwice(p: seq<Piece>, q: seq<Piece>, s: Scanned)
    ensures Before(p, Before(q, s)) == Before(p + q, s)
  {}

  /** Appending routed text to the outputs. */
  lemma OutputPlain(p: seq<Piece>, s: string, d: nat)
    ensures Side(p + Plains(s, d > 0), d > 0) == Side(p, d > 0) + s
    ensures Side(p + Plains(s, d > 0), d == 0) == Side(p, d == 0)
  {
    hide Routed;
    ViewsConcat(p, Plains(s, d > 0), 0);
    PlainsViews(s, d);
    assert Side(p, d == 0) + "" == Side(p, d == 0);
  }

  lemma OutputTag(p: seq<Piece>, t: string, k: TagKind)
    ensures Output(p + [Tag(t, k)]) == Output(p)
  {
    hide Routed;
    var q := [Tag(t, k)];
    ViewsConcat(p, q, 0);
    assert q[1..] == [];
    assert Side(q, false) == "" && Side(q, true) == "";
    assert Side(p, false) + "" == Side(p, false) && Side(p, true) + "" == Side(p, true);
  }

  class ThinkFilter {
    var buffer: string
    var insideThink: bool
    var thinkDepth: nat
    /** Everything pushed so far, and what has become of it. */
    ghost var input: string
    ghost var pieces: seq<Piece>

    ghost predicate Valid()
      reads this
    {
      && insideThink == (thinkDepth > 0)
      && Bytes(buffer) <= CAP
      && (buffer == "" || Held(buffer))
      && Flatten(pieces) + buffer == input
      && DepthAfter(pieces, 0) == thinkDepth
      && Routed(pieces, 0)
    }

    constructor ()
      ensures Valid() && input == "" && pieces == [] && buffer == "" && thinkDepth == 0
    {
      buffer, insideThink, thinkDepth := "", false, 0;
      input, pieces := "", [];
    }

    /** Emit the first `n` characters of the buffer on the current side. */
    method Emit(n: nat, out: FilterOut, ghost done: seq<Piece>) returns (out': FilterOut)
      requires n <= |buffer| && insideThink == (thinkDepth > 0) && out == Output(done)
      modifies this`buffer
      ensures buffer == old(buffer)[n..]
      ensures out' == Output(done + Plains(old(buffer)[..n], thinkDepth > 0))
    {
      var prefix := buffer[..n];
      OutputPlain(done, prefix, thinkDepth);
      if insideThink {
        out' := out.(thinking := out.thinking + prefix);
      } else {
        out' := out.(content := out.content + prefix);
      }
      buffer := buffer[n..];
    }

    /** A recognised tag changes the nesting depth. */
    method Enter(kind: TagKind)
      modifies this`insideThink, this`thinkDepth
      ensures thinkDepth == NextDepth(old(thinkDepth), kind)
      ensures old(insideThink == (thinkDepth > 0)) ==> insideThink == (thinkDepth > 0)
    {
      match kind {
        case Open =>
          thinkDepth := thinkDepth + 1;
          insideThink := true;
        case Close =>
          thinkDepth := if thinkDepth == 0 then 0 else thinkDepth - 1;
          insideThink := thinkDepth > 0;
        case SelfClosing =>
      }
    }

    method ProcessBuffer() returns (out: FilterOut)
      requires insideThink == (thinkDepth > 0)
      modifies this`buffer, this`insideThink, this`thinkDepth
      ensures insideThink == (thinkDepth > 0)
      ensures var s := Scan(old(buffer), old(thinkDepth));
              buffer == s.rest && thinkDepth == s.depth && out == Output(s.pieces)
    {
      hide LookAt, ParseTag, Held, Output, Scan, Bytes, AllEmitted, NextDepth, Plains;
      out := FilterOut("", "");
      ghost var done: seq<Piece> := [];
      ghost var whole := Scan(buffer, thinkDepth);
      OutputOfNothing();
      assert whole == Before(done, whole);
      while true
        invariant insideThink == (thinkDepth > 0)
        invariant whole == Before(done, Scan(buffer, thinkDepth))
        invariant out == Output(done)
        decreases |buffer|
      {
        ghost var b, d := buffer, thinkDepth;
        var event := NextBufferEvent(buffer, insideThink, thinkDepth);
        match event {
          case TagEvent(pos, end, kind) =>
            ScanPastEmitted(b, pos, d);
            AdvanceTake(done, b, pos, end, kind, d);
            out := Emit(pos, out, done);
            OutputTag(done + Plains(b[..pos], d > 0), b[pos..end], kind);
            buffer := buffer[end - pos..];
            assert buffer == b[end..];
            Enter(kind);
            done := done + Plains(b[..pos], d > 0) + [Tag(b[pos..end], kind)];
          case OversizedTag(end) =>
            AdvanceEmit(done, b, end, d);
            out := Emit(end, out, done);
            done := done + Plains(b[..end], d > 0);
          case PartialAt(pos) =>
            ScanPastEmitted(b, pos, d);
            ScanHold(b[pos..], d);
            BeforeTwice(done, Plains(b[..pos], d > 0), Scan(b[pos..], d));
            out := Emit(pos, out, done);
            done := done + Plains(b[..pos], d > 0);
            if Bytes(buffer) > CAP {
              ghost var c := buffer;
              assert c[..|c|] == c && c[|c|..] == "";
              out := Emit(|buffer|, out, done);
              done := done + Plains(c, d > 0);
            }
            assert whole == Scanned(done, buffer, d);
            break;
          case NoEvent =>
            ScanPastEmitted(b, |b|, d);
            ScanEmpty(d);
            assert b[..|b|] == b && b[|b|..] == "";
            BeforeTwice(done, Plains(b, d > 0), Scan("", d));
            out := Emit(|buffer|, out, done);
            done := done + Plains(b, d > 0);
            assert whole == Scanned(done, "", d);
            break;
        }
      }
    }

    method Push(chunk: string) returns (out: FilterOut)
      requires Valid()
      modifies this
      ensures Valid() && input == old(input) + chunk
      ensures var s := Scan(old(buffer) + chunk, old(thinkDepth));
              && buffer == s.rest && thinkDepth == s.depth
              && pieces == old(pieces) + s.pieces
              && out == Output(s.pieces)
    {
      hide LookAt, Scan, Held, Routed, Output, Flatten, DepthAfter, Bytes;
      ghost var d := thinkDepth;
      ghost var p := pieces;
      buffer := buffer + chunk;
      ghost var b := buffer;
      out := ProcessBuffer();
      ghost var s := Scan(b, d);
      ScanPartitions(b, d);
      pieces := pieces + s.pieces;
      ViewsConcat(p, s.pieces, 0);
      input := input + chunk;
      assert (Flatten(p) + Flatten(s.pieces)) + s.rest == input by {
        ConcatAssociates(Flatten(p), Flatten(s.pieces), s.rest);
        ConcatAssociates(Flatten(p), old(buffer), chunk);
      }
    }

    /** Process once more and release what is still held. Consumes the filter. */
    method Finish() returns (out: FilterOut)
      requires Valid()
      modifies this`buffer, this`insideThink, this`thinkDepth
      ensures out == Output(Final(old(buffer), old(thinkDepth)))
      ensures buffer == ""
    {
      hide Scan, Held, Routed, Output;
      ghost var s := Scan(buffer, thinkDepth);
      out := ProcessBuffer();
      ghost var c := buffer;
      assert c[..|c|] == c;
      out := Emit(|buffer|, out, s.pieces);
    }
  }

  lemma OutputOfNothing()
    ensures Output([]) == FilterOut("", "")
  {}

  lemma AdvanceTake(done: seq<Piece>, b: string, pos: nat, end: nat, kind: TagKind, d: nat)
    requires pos < end <= |b| && LookAt(b[pos..], d) == Take(kind, end - pos)
    requires Scan(b, d) == Before(Plains(b[..pos], d > 0), Scan(b[pos..], d))
    ensures Before(done, Scan(b, d))
         == Before(done + Plains(b[..pos], d > 0) + [Tag(b[pos..end], kind)], Scan(b[end..], NextDepth(d, kind)))
  {
    hide LookAt;
    assert b[pos..][end - pos..] == b[end..] && b[pos..][..end - pos] == b[pos..end];
    var p, t := Plains(b[..pos], d > 0), [Tag(b[pos..end], kind)];
    var s := Scan(b[end..], NextDepth(d, kind));
    BeforeTwice(p, t, s);
    BeforeTwice(done, p + t, s);
    assert done + (p + t) == done + p + t;
  }

  lemma AdvanceEmit(done: seq<Piece>, b: string, end: nat, d: nat)
    requires FirstEvent(OversizedTag(end), b, d)
    ensures 0 < end <= |b|
    ensures Before(done, Scan(b, d)) == Before(done + Plains(b[..end], d > 0), Scan(b[end..], d))
  {
    hide LookAt;
    var pos: nat :| pos < end <= |b| && AllEmitted(b, pos, d) && LookAt(b[pos..], d) == Emit(end - pos);
    ScanPastEmitted(b, pos, d);
    ScanEmit(b[pos..], end - pos, d);
    assert b[pos..][end - pos..] == b[end..] && b[..pos] + b[pos..][..end - pos] == b[..end];
    var p, t := Plains(b[..pos], d > 0), Plains(b[pos..][..end - pos], d > 0);
    PlainsConcat(b[..pos], b[pos..][..end - pos], d > 0);
    BeforeTwice(p, t, Scan(b[end..], d));
    BeforeTwice(done, p + t, Scan(b[end..], d));
  }

  /** Both sides of a whole text in one pass. */
  method SplitThinkBlocks(text: string) returns (content: string, thinking: string)
    ensures FilterOut(content, thinking) == Output(Final(text, 0))
  {
    hide Scan, Routed, Held;
    var filter := new ThinkFilter();
    var out := filter.Push(text);
    assert "" + text == text;
    ghost var s := Scan(text, 0);
    var finalOut := filter.Finish();
    content := out.content + finalOut.content;
    thinking := out.thinking + finalOut.thinking;
    FinalAfterScan(text, 0);
    ViewsConcat(s.pieces, Final(s.rest, s.depth), 0);
  }

  function Joined(a: FilterOut, b: FilterOut): FilterOut {
    FilterOut(a.content + b.content, a.thinking + b.thinking)
  }

  lemma OutputConcat(p: seq<Piece>, q: seq<Piece>)
    ensures Output(p + q) == Joined(Output(p), Output(q))
  {
    SideConcat(p, q, false);
    SideConcat(p, q, true);
  }

  /** Pushing one more chunk of a stream. */
  lemma StreamStep(chunks: seq<string>, i: nat, b: string, d: nat, done: seq<Piece>)
    requires i < |chunks|
    ensures var s := Scan(b + chunks[i], d);
            done + Stream(chunks[i..], b, d) == (done + s.pieces) + Stream(chunks[i + 1..], s.rest, s.depth)
  {
    hide Scan;
    assert chunks[i..][0] == chunks[i] && chunks[i..][1..] == chunks[i + 1..];
  }

  /** A filter fed chunk by chunk, the way a provider stream does. */
  method FilterChunks(chunks: seq<string>) returns (out: FilterOut)
    ensures out == Output(Stream(chunks, "", 0))
  {
    hide Scan, Output, Stream, Routed, Held, Flatten, DepthAfter, Bytes;
    var filter := new ThinkFilter();
    out := FilterOut("", "");
    ghost var done: seq<Piece> := [];
    OutputOfNothing();
    var i := 0;
    assert chunks[0..] == chunks && [] + Stream(chunks, "", 0) == Stream(chunks, "", 0);
    while i < |chunks|
      invariant 0 <= i <= |chunks| && filter.Valid() && fresh(filter)
      invariant out == Output(done)
      invariant Stream(chunks, "", 0) == done + Stream(chunks[i..], filter.buffer, filter.thinkDepth)
    {
      ghost var b, d := filter.buffer, filter.thinkDepth;
      StreamStep(chunks, i, b, d, done);
      var next := filter.Push(chunks[i]);
      OutputConcat(done, Scan(b + chunks[i], d).pieces);
      out := FilterOut(out.content + next.content, out.thinking + next.thinking);
      done := done + Scan(b + chunks[i], d).pieces;
      i := i + 1;
    }
    assert chunks[i..] == [];
    StreamEnds(filter.buffer, filter.thinkDepth);
    OutputConcat(done, Final(filter.buffer, filter.thinkDepth));
    var last := filter.Finish();
    out := FilterOut(out.content + last.content, out.thinking + last.thinking);
  }

  lemma StreamEnds(b: string, d: nat)
    ensures Stream([], b, d) == Final(b, d)
  {}

  /** Fed at safe cuts, the filter puts out what splitting the whole text does. */
  lemma FilterMatchesSplit(chunks: seq<string>)
    requires SafeCuts(chunks, "", 0)
    ensures Output(Stream(chunks, "", 0)) == Output(Final(Concat(chunks), 0))
  {
    ChunkInvariance(chunks, "", 0);
    assert "" + Concat(chunks) == Concat(chunks);
  }
}
