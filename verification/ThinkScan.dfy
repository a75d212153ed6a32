/** The meaning of the think filter: what one push makes of its buffer, what
    `finish` adds, and how the input is partitioned (thinking.rs). */
module ThinkScan {
  import opened Text
  import opened ThinkTags

  /** `MAX_BUFFERED_THINK_TAG_BYTES`. */
  const CAP: nat := 8 * 1024

  /** One unit of input: a character routed to content or to thinking, or a
      recognised tag, which is routed to neither. */
  datatype Piece = Plain(c: char, thinking: bool) | Tag(text: string, kind: TagKind)

  datatype Scanned = Scanned(pieces: seq<Piece>, rest: string, depth: nat)

  datatype FilterOut = FilterOut(content: string, thinking: string)

  function NextDepth(d: nat, k: TagKind): nat {
    match k
    case Open => d + 1
    case Close => if d == 0 then 0 else d - 1
    case SelfClosing => d
  }

  function Plains(s: string, thinking: bool): (p: seq<Piece>)
    ensures |p| == |s|
    ensures forall i :: 0 <= i < |p| ==> p[i] == Plain(s[i], thinking)
  {
    seq(|s|, i requires 0 <= i < |s| => Plain(s[i], thinking))
  }

  /** What happens at the head of the buffer: the first `n` characters are
      emitted, or dropped as a tag, or everything waits. */
  datatype Look = Emit(n: nat) | Take(kind: TagKind, n: nat) | Hold

  function LookAt(b: string, d: nat): (r: Look)
    requires b != ""
    ensures !r.Hold? ==> 1 <= r.n <= |b|
  {
    if b[0] != '<' then Emit(1)
    else match ParseTag(b)
      case Found(k, n) =>
        if Bytes(b[..n]) > CAP then Emit(n)
        else if d > 0 || k != Close then Take(k, n)
        else Emit(1)
      case NoTag => if Held(b) then Hold else Emit(1)
  }

  function Before(p: seq<Piece>, s: Scanned): Scanned { s.(pieces := p + s.pieces) }

  /** One run of `process_buffer` on buffer `b` at nesting depth `d`. */
  function Scan(b: string, d: nat): (r: Scanned)
    decreases |b|
  {
    if b == "" then Scanned([], "", d)
    else match LookAt(b, d)
      case Emit(n) => Before(Plains(b[..n], d > 0), Scan(b[n..], d))
      case Take(k, n) => Before([Tag(b[..n], k)], Scan(b[n..], NextDepth(d, k)))
      case Hold =>
        if Bytes(b) > CAP then Scanned(Plains(b, d > 0), "", d) else Scanned([], b, d)
  }

  /** `process_buffer`, then whatever is left in the buffer as plain text. */
  function Final(b: string, d: nat): seq<Piece> {
    var s := Scan(b, d);
    s.pieces + Plains(s.rest, s.depth > 0)
  }

  /** Pushing every chunk and then finishing. */
  function Stream(chunks: seq<string>, b: string, d: nat): seq<Piece>
    decreases |chunks|
  {
    if chunks == [] then Final(b, d)
    else
      var s := Scan(b + chunks[0], d);
      s.pieces + Stream(chunks[1..], s.rest, s.depth)
  }

  function Concat(chunks: seq<string>): string {
    if chunks == [] then "" else chunks[0] + Concat(chunks[1..])
  }

  // ---- Views of a piece list ----

  function Side(p: seq<Piece>, thinking: bool): string {
    if p == [] then ""
    else (if p[0].Plain? && p[0].thinking == thinking then [p[0].c] else "") + Side(p[1..], thinking)
  }

  function Output(p: seq<Piece>): FilterOut { FilterOut(Side(p, false), Side(p, true)) }

  function Source(p: Piece): string {
    match p
    case Plain(c, _) => [c]
    case Tag(t, _) => t
  }

  function Flatten(p: seq<Piece>): string {
    if p == [] then "" else Source(p[0]) + Flatten(p[1..])
  }

  function DepthAfter(p: seq<Piece>, d: nat): nat {
    if p == [] then d
    else DepthAfter(p[1..], if p[0].Tag? then NextDepth(d, p[0].kind) else d)
  }

  /** Every character goes to thinking exactly when it stands under an open tag,
      every tag piece is the text of one tag of its kind, and a closing tag is
      recognised only under an open one. */
  predicate Routed(p: seq<Piece>, d: nat) {
    p == [] ||
    match p[0]
    case Plain(c, t) => t == (d > 0) && Routed(p[1..], d)
    case Tag(text, k) =>
      && ParseTag(text) == Found(k, |text|) && Bytes(text) <= CAP && (k == Close ==> d > 0)
      && Routed(p[1..], NextDepth(d, k))
  }

  lemma {:induction false} FlattenConcat(p: seq<Piece>, q: seq<Piece>)
    ensures Flatten(p + q) == Flatten(p) + Flatten(q)
  {
    if p == [] {
      assert p + q == q;
    } else {
      assert (p + q)[0] == p[0] && (p + q)[1..] == p[1..] + q;
      FlattenConcat(p[1..], q);
    }
  }

  lemma {:induction false} RoutedConcat(p: seq<Piece>, q: seq<Piece>, d: nat)
    ensures DepthAfter(p + q, d) == DepthAfter(q, DepthAfter(p, d))
    ensures Routed(p + q, d) <==> Routed(p, d) && Routed(q, DepthAfter(p, d))
  {
    hide ParseTag, Bytes, NextDepth;
    if p == [] {
      assert p + q == q;
    } else {
      assert (p + q)[0] == p[0] && (p + q)[1..] == p[1..] + q;
      RoutedConcat(p[1..], q, if p[0].Tag? then NextDepth(d, p[0].kind) else d);
    }
  }

  lemma {:induction false} SideConcat(p: seq<Piece>, q: seq<Piece>, t: bool)
    ensures Side(p + q, t) == Side(p, t) + Side(q, t)
  {
    if p == [] {
      assert p + q == q;
    } else {
      assert (p + q)[0] == p[0] && (p + q)[1..] == p[1..] + q;
      SideConcat(p[1..], q, t);
    }
  }

  lemma ViewsConcat(p: seq<Piece>, q: seq<Piece>, d: nat)
    ensures Flatten(p + q) == Flatten(p) + Flatten(q)
    ensures DepthAfter(p + q, d) == DepthAfter(q, DepthAfter(p, d))
    ensures Routed(p + q, d) <==> Routed(p, d) && Routed(q, DepthAfter(p, d))
    ensures Side(p + q, false) == Side(p, false) + Side(q, false)
    ensures Side(p + q, true) == Side(p, true) + Side(q, true)
  {
    hide *;
    FlattenConcat(p, q);
    RoutedConcat(p, q, d);
    SideConcat(p, q, false);
    SideConcat(p, q, true);
  }

  lemma {:induction false} PlainsViews(s: string, d: nat)
    ensures var p := Plains(s, d > 0);
            Flatten(p) == s && DepthAfter(p, d) == d && Routed(p, d)
    ensures Side(Plains(s, d > 0), d > 0) == s && Side(Plains(s, d > 0), d == 0) == ""
  {
    hide ParseTag;
    if s != "" {
      assert Plains(s, d > 0)[1..] == Plains(s[1..], d > 0);
      PlainsViews(s[1..], d);
      assert [s[0]] + s[1..] == s;
    }
  }

  lemma PlainsConcat(s: string, t: string, b: bool)
    ensures Plains(s + t, b) == Plains(s, b) + Plains(t, b)
  {}

  // ---- Partition and routing, with no side condition ----

  lemma CutPrefix(b: string, n: nat, i: nat, j: nat)
    requires i <= j <= n <= |b|
    ensures b[i..] == b[..n][i..] + b[n..]
    ensures b[i..j] == b[..n][i..j]
  {}

  lemma NameStandsAlone(b: string, n: nat)
    requires |b| >= 2 && NameEnd(b) < n <= |b|
    ensures IsCloseShape(b[..n]) == IsCloseShape(b)
    ensures NameEnd(b[..n]) == NameEnd(b) && Name(b[..n]) == Name(b)
    ensures b[NameEnd(b)..] == b[..n][NameEnd(b)..] + b[n..]
  {
    hide AlphaRun;
    var st, e := NameStart(b), NameEnd(b);
    var s, t := b[..n], b[n..];
    assert s[1] == b[1];
    assert NameStart(s) == st;
    CutPrefix(b, n, st, e);
    CutPrefix(b, n, e, e);
    SameAlphaRun(s[st..], t, e - st);
  }

  lemma SameAlphaRun(r: string, t: string, k: nat)
    requires AlphaRun(r + t) == k < |r|
    ensures AlphaRun(r) == k
  {
    hide AlphaRun;
    AlphaRunConcat(r, t);
  }

  /** A recognised tag, taken out of its context, is still that tag. */
  lemma TagStandsAlone(b: string)
    requires ParseTag(b).Found?
    ensures var n := ParseTag(b).len; ParseTag(b[..n]) == ParseTag(b)
  {
    hide Held, IsThinkName, NameEnd, Name;
    var n := ParseTag(b).len;
    var e := NameEnd(b);
    NameStandsAlone(b, n);
    var s, t := b[..n], b[n..];
    assert s[0] == b[0] && s[e] == b[e];
    if IsCloseShape(b) {
      SpaceRunConcat(s[e..], t);
      assert s[e..][n - 1 - e] == '>';
    } else {
      AttributesFindGt(s[e..], Unquoted, false);
      if !HasGt(s[e..], Unquoted) {
        AttributesGrow(s[e..], t, Unquoted, false);
      }
      AttributesStable(s[e..], t, Unquoted, false);
    }
  }

  predicate Partitions(s: Scanned, b: string, d: nat) {
    && Flatten(s.pieces) + s.rest == b
    && DepthAfter(s.pieces, d) == s.depth
    && Routed(s.pieces, d)
  }

  lemma ConcatAssociates(a: string, b: string, c: string)
    ensures (a + b) + c == a + (b + c)
  {}

  lemma PartitionsBefore(p: seq<Piece>, s: Scanned, a: string, b: string, d: nat, d': nat)
    requires Flatten(p) == a && DepthAfter(p, d) == d' && Routed(p, d)
    requires Partitions(s, b, d')
    ensures Partitions(Before(p, s), a + b, d)
  {
    hide ParseTag, Routed, Flatten, DepthAfter, Side;
    ViewsConcat(p, s.pieces, d);
    ConcatAssociates(a, Flatten(s.pieces), s.rest);
  }

  lemma TagPiece(b: string, k: TagKind, n: nat, d: nat)
    requires b != "" && LookAt(b, d) == Take(k, n)
    ensures var p := [Tag(b[..n], k)];
            Flatten(p) == b[..n] && DepthAfter(p, d) == NextDepth(d, k) && Routed(p, d)
  {
    TagStandsAlone(b);
    var p := [Tag(b[..n], k)];
    assert p[1..] == [];
    assert Flatten(p) == b[..n] + "";
  }

  lemma PartitionsNothing(b: string, d: nat)
    ensures Partitions(Scanned([], b, d), b, d)
  {
    assert "" + b == b;
  }

  lemma PartitionsPlain(b: string, d: nat)
    ensures Partitions(Scanned(Plains(b, d > 0), "", d), b, d)
  {
    hide Routed;
    PlainsViews(b, d);
    assert b + "" == b;
  }

  lemma ScanEmpty(d: nat)
    ensures Scan("", d) == Scanned([], "", d)
  {}

  lemma ScanHold(b: string, d: nat)
    requires b != "" && LookAt(b, d) == Hold
    ensures Scan(b, d) == if Bytes(b) > CAP then Scanned(Plains(b, d > 0), "", d) else Scanned([], b, d)
  {
    hide LookAt;
  }

  lemma ScanEmit(x: string, n: nat, d: nat)
    requires x != "" && LookAt(x, d) == Emit(n)
    ensures Scan(x, d) == Before(Plains(x[..n], d > 0), Scan(x[n..], d))
  {
    hide LookAt;
  }

  lemma ScanTake(x: string, k: TagKind, n: nat, d: nat)
    requires x != "" && LookAt(x, d) == Take(k, n)
    ensures Scan(x, d) == Before([Tag(x[..n], k)], Scan(x[n..], NextDepth(d, k)))
  {
    hide LookAt;
  }

  lemma NoBytes()
    ensures Bytes("") == 0
  {}

  /** The buffer is partitioned, in order, into routed characters, recognised
      tags and what stays behind, which is short and a possible partial tag. */
  lemma {:induction false} ScanPartitions(b: string, d: nat)
    ensures Partitions(Scan(b, d), b, d)
    ensures Bytes(Scan(b, d).rest) <= CAP
    ensures Scan(b, d).rest == "" || Held(Scan(b, d).rest)
    decreases |b|
  {
    hide ParseTag, Partitions, Scan, Held, Bytes;
    if b == "" {
      ScanEmpty(d);
      NoBytes();
      PartitionsNothing(b, d);
    } else {
      match LookAt(b, d)
      case Emit(n) =>
        assert b == b[..n] + b[n..];
        ScanEmit(b, n, d);
        ScanPartitions(b[n..], d);
        PlainsViews(b[..n], d);
        PartitionsBefore(Plains(b[..n], d > 0), Scan(b[n..], d), b[..n], b[n..], d, d);
      case Take(k, n) =>
        assert b == b[..n] + b[n..];
        TagPiece(b, k, n, d);
        ScanTake(b, k, n, d);
        ScanPartitions(b[n..], NextDepth(d, k));
        PartitionsBefore([Tag(b[..n], k)], Scan(b[n..], NextDepth(d, k)), b[..n], b[n..], d, NextDepth(d, k));
      case Hold =>
        ScanHold(b, d);
        NoBytes();
        PartitionsNothing(b, d);
        PartitionsPlain(b, d);
    }
  }

  lemma FinalPartitions(b: string, d: nat)
    ensures Flatten(Final(b, d)) == b && Routed(Final(b, d), d)
  {
    hide ParseTag, Held, Scan;
    ScanPartitions(b, d);
    var s := Scan(b, d);
    PlainsViews(s.rest, s.depth);
    ViewsConcat(s.pieces, Plains(s.rest, s.depth > 0), d);
  }

  lemma Regroup(p: string, r: string, b: string, c: string, t: string)
    requires p + r == b + c
    ensures p + (r + t) == b + (c + t)
  {
    assert p + (r + t) == (p + r) + t;
    assert b + (c + t) == (b + c) + t;
  }

  /** For every chunking, streaming loses, invents and reorders nothing. */
  lemma {:induction false} StreamPartitions(chunks: seq<string>, b: string, d: nat)
    ensures Flatten(Stream(chunks, b, d)) == b + Concat(chunks)
    ensures Routed(Stream(chunks, b, d), d)
    decreases |chunks|
  {
    hide Scan, Final, Routed, ParseTag, Held;
    if chunks == [] {
      FinalPartitions(b, d);
      assert b + Concat(chunks) == b;
    } else {
      var s := Scan(b + chunks[0], d);
      ScanPartitions(b + chunks[0], d);
      StreamPartitions(chunks[1..], s.rest, s.depth);
      ViewsConcat(s.pieces, Stream(chunks[1..], s.rest, s.depth), d);
      Regroup(Flatten(s.pieces), s.rest, b, chunks[0], Concat(chunks[1..]));
    }
  }

  // ---- Reading the whole text in one pass ----

  predicate NoLess(s: string) { forall i :: 0 <= i < |s| ==> s[i] != '<' }

  lemma BeforeFinal(p: seq<Piece>, s: Scanned)
    ensures Before(p, s).pieces + Plains(s.rest, s.depth > 0) == p + (s.pieces + Plains(s.rest, s.depth > 0))
  {}

  lemma FinalEmpty(d: nat)
    ensures Final("", d) == []
  {}

  lemma FinalEmit(u: string, n: nat, d: nat)
    requires u != "" && LookAt(u, d) == Emit(n)
    ensures Final(u, d) == Plains(u[..n], d > 0) + Final(u[n..], d)
  {
    hide ParseTag, Held, LookAt;
    BeforeFinal(Plains(u[..n], d > 0), Scan(u[n..], d));
  }

  lemma FinalTake(u: string, k: TagKind, n: nat, d: nat)
    requires u != "" && LookAt(u, d) == Take(k, n)
    ensures Final(u, d) == [Tag(u[..n], k)] + Final(u[n..], NextDepth(d, k))
  {
    hide ParseTag, Held, LookAt;
    BeforeFinal([Tag(u[..n], k)], Scan(u[n..], NextDepth(d, k)));
  }

  lemma FinalHold(u: string, d: nat)
    requires u != "" && LookAt(u, d) == Hold
    ensures Final(u, d) == Plains(u, d > 0)
  {
    hide ParseTag, Held, LookAt;
    assert [] + Plains(u, d > 0) == Plains(u, d > 0);
    assert Plains(u, d > 0) + Plains("", d > 0) == Plains(u, d > 0);
  }

  lemma {:induction false} PlainRun(s: string, y: string, d: nat)
    requires NoLess(s)
    ensures Final(s + y, d) == Plains(s, d > 0) + Final(y, d)
  {
    hide ParseTag, Held, Final;
    if s == "" {
      assert s + y == y;
    } else {
      var u := s + y;
      assert u[0] == s[0] && u[1..] == s[1..] + y;
      PlainRun(s[1..], y, d);
      FinalEmit(u, 1, d);
      assert Plains(s, d > 0) == Plains(u[..1], d > 0) + Plains(s[1..], d > 0);
    }
  }

  lemma PlainAll(s: string, d: nat)
    requires NoLess(s)
    ensures Final(s, d) == Plains(s, d > 0)
  {
    hide ParseTag, Held, Final;
    PlainRun(s, "", d);
    assert s + "" == s;
    FinalEmpty(d);
  }

  lemma ClosePartialIsPlain(u: string)
    requires |u| >= 2 && u[0] == '<' && u[1] == '/' && Held(u)
    ensures NoLess(u[1..])
  {
    assert forall k: nat :: OpenPartialAt(u, k) ==> FoldsTo(u[1 + 0], THINKING[0]);
    var k: nat :| k <= 8 && ClosePartialAt(u, k);
    forall i | 0 <= i < |u[1..]| ensures u[1..][i] != '<' {
      assert u[1..][i] == u[1 + i];
      if 2 <= 1 + i < 2 + k { assert FoldsTo(u[2 + (i - 1)], THINKING[i - 1]); }
      else if 2 + k <= 1 + i { assert u[2 + k..][i - 1 - k] == u[1 + i]; }
    }
  }

  lemma CloseTagIsPlain(u: string)
    requires ParseTag(u).Found? && ParseTag(u).kind == Close
    ensures NoLess(u[1..ParseTag(u).len])
  {
    AttributesNotClose(u);
    var n := ParseTag(u).len;
    var e := NameEnd(u);
    forall i | 0 <= i < |u[1..n]| ensures u[1..n][i] != '<' {
      assert u[1..n][i] == u[1 + i];
      if 2 <= 1 + i < e { assert IsAsciiAlpha(u[2..][i - 1]); }
      else if e <= 1 + i < n - 1 { assert IsAsciiWhitespace(u[e..][1 + i - e]); }
    }
  }

  lemma AttributesNotClose(u: string)
    requires ParseTag(u).Found?
    ensures ParseTag(u).kind == Close <==> IsCloseShape(u)
  {}

  /** A head of `n` characters that is emitted whole, and has no `<` after its
      first character, may as well be emitted one character at a time. */
  lemma SplitEmit(u: string, m: nat, n: nat, d: nat)
    requires u != "" && LookAt(u, d) == Emit(n) && 1 <= m <= n && NoLess(u[1..n])
    ensures Final(u, d) == Plains(u[..m], d > 0) + Final(u[m..], d)
  {
    hide LookAt, ParseTag, Final;
    FinalEmit(u, n, d);
    assert NoLess(u[m..n]) by {
      forall i | 0 <= i < n - m ensures u[m..n][i] != '<' { assert u[m..n][i] == u[1..n][m - 1 + i]; }
    }
    PlainRun(u[m..n], u[n..], d);
    assert u[m..n] + u[n..] == u[m..];
    PlainsConcat(u[..m], u[m..n], d > 0);
    assert u[..m] + u[m..n] == u[..n];
  }

  lemma SplitHold(u: string, m: nat, d: nat)
    requires u != "" && LookAt(u, d) == Hold && 1 <= m <= |u| && NoLess(u[1..])
    ensures Final(u, d) == Plains(u[..m], d > 0) + Final(u[m..], d)
  {
    hide LookAt, ParseTag, Final;
    FinalHold(u, d);
    assert NoLess(u[m..]) by {
      forall i | 0 <= i < |u| - m ensures u[m..][i] != '<' { assert u[m..][i] == u[1..][m - 1 + i]; }
    }
    PlainAll(u[m..], d);
    PlainsConcat(u[..m], u[m..], d > 0);
    assert u[..m] + u[m..] == u;
  }

  /** The head of a string in closing shape is text, up to any point that a
      recognised tag does not end before, unless a closing tag is taken there. */
  lemma CloseShapeIsText(u: string, m: nat, d: nat)
    requires |u| >= 2 && u[0] == '<' && u[1] == '/'
    requires 1 <= m <= |u| && NoLess(u[1..m])
    requires ParseTag(u).Found? ==> m <= ParseTag(u).len && !LookAt(u, d).Take?
    ensures Final(u, d) == Plains(u[..m], d > 0) + Final(u[m..], d)
  {
    hide Held, Final, ParseTag, Plains, Bytes;
    if ParseTag(u).Found? { AttributesNotClose(u); }
    if LookAt(u, d) == Hold {
      ClosePartialIsPlain(u);
      SplitHold(u, m, d);
    } else if LookAt(u, d) == Emit(1) {
      FinalEmit(u, 1, d);
      PlainRun(u[1..m], u[m..], d);
      assert u[1..m] + u[m..] == u[1..];
      PlainsConcat(u[..1], u[1..m], d > 0);
      assert u[..1] + u[1..m] == u[..m];
    } else {
      CloseTagIsPlain(u);
      SplitEmit(u, m, ParseTag(u).len, d);
    }
  }

  /** Outside a think block a bare `</` may be cut off: a closing tag there is text. */
  lemma LoneCloseIsText(y: string)
    ensures Final("</" + y, 0) == Plains("<", false) + Final("/" + y, 0)
  {
    var u := "</" + y;
    assert u[1..] == "/" + y && u[..1] == "<" && u[0] == '<' && u[1] == '/';
    if ParseTag(u).Found? { AttributesNotClose(u); }
    CloseShapeIsText(u, 1, 0);
  }

  /** A tag in `x + y` that is not in `x` ends after `x`. */
  lemma GrownTagEndsLater(x: string, y: string)
    requires ParseTag(x).NoTag? && ParseTag(x + y).Found?
    ensures |x| < ParseTag(x + y).len
  {
    var u := x + y;
    var n := ParseTag(u).len;
    if n <= |x| {
      TagStandsAlone(u);
      assert u[..n] + x[n..] == x;
      ParseStable(u[..n], x[n..]);
      assert false;
    }
  }

  /** An unfinished closing tag over the cap is text whatever follows it. */
  lemma LongCloseIsText(x: string, y: string, d: nat)
    requires |x| >= 2 && x[0] == '<' && x[1] == '/' && ParseTag(x).NoTag? && Held(x) && Bytes(x) > CAP
    ensures Final(x + y, d) == Plains(x, d > 0) + Final(y, d)
  {
    hide Held, Final, IsThinkName;
    var u := x + y;
    ClosePartialIsPlain(x);
    assert u[0] == x[0] && u[1] == x[1] && u[1..|x|] == x[1..] && u[..|x|] == x && u[|x|..] == y;
    if ParseTag(u).Found? {
      GrownTagEndsLater(x, y);
      var n := ParseTag(u).len;
      assert u[..n] == x + y[..n - |x|];
      BytesConcat(x, y[..n - |x|]);
    }
    CloseShapeIsText(u, |x|, d);
  }

  lemma LongHoldIsText(x: string, y: string, d: nat)
    requires x != "" && LookAt(x, d) == Hold && Bytes(x) > CAP && !OpenPartial(x)
    ensures Final(x + y, d) == Plains(x, d > 0) + Final(y, d)
  {
    hide Final, OpenPartial;
    var k: nat :| k <= 8 && ClosePartialAt(x, k);
    LongCloseIsText(x, y, d);
  }

  lemma FinalAfterScan(b: string, d: nat)
    ensures var s := Scan(b, d); Final(b, d) == s.pieces + Final(s.rest, s.depth)
    decreases |b|
  {
    hide ParseTag, Held, Final;
    if b != "" {
      match LookAt(b, d)
      case Emit(n) =>
        FinalAfterScan(b[n..], d);
        FinalEmit(b, n, d);
      case Take(k, n) =>
        FinalAfterScan(b[n..], NextDepth(d, k));
        FinalTake(b, k, n, d);
      case Hold =>
        FinalHold(b, d);
        FinalEmpty(d);
        assert Plains(b, d > 0) + [] == [] + Plains(b, d > 0);
    }
  }
}
