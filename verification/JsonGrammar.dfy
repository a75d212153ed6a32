/** The texts that the JSON scanners take for complete, as a grammar: characters,
    strings with escapes, and groups in braces and brackets (json.rs, structured.rs). */
module JsonGrammar {
  import opened Common
  import opened JsonRepair
  import SummaryJson

  // ---- The grammar ----

  /** One character of a string: itself, or anything behind a backslash. */
  datatype Unit = Raw(c: char) | Slashed(c: char)

  datatype Piece =
    | Plain(c: char)
    | Quoted(units: seq<Unit>)
    | Braced(inner: seq<Piece>)
    | Bracketed(inner: seq<Piece>)

  predicate UnitFits(u: Unit) { u.Raw? ==> u.c != '"' && u.c != '\\' }

  predicate Fits(p: Piece) {
    match p
    case Plain(c) => c != '"' && c != '{' && c != '}' && c != '[' && c != ']'
    case Quoted(us) => forall i :: 0 <= i < |us| ==> UnitFits(us[i])
    case Braced(ps) => AllFit(ps)
    case Bracketed(ps) => AllFit(ps)
  }

  predicate AllFit(ps: seq<Piece>) { forall i :: 0 <= i < |ps| ==> Fits(ps[i]) }

  function UnitText(u: Unit): string {
    match u
    case Raw(c) => [c]
    case Slashed(c) => ['\\', c]
  }

  function UnitsText(us: seq<Unit>): string {
    if us == [] then "" else UnitsText(us[..|us| - 1]) + UnitText(us[|us| - 1])
  }

  function PieceText(p: Piece): string
    decreases p
  {
    match p
    case Plain(c) => [c]
    case Quoted(us) => "\"" + UnitsText(us) + "\""
    case Braced(ps) => "{" + PiecesText(ps) + "}"
    case Bracketed(ps) => "[" + PiecesText(ps) + "]"
  }

  function PiecesText(ps: seq<Piece>): string
    decreases ps
  {
    if ps == [] then "" else PiecesText(ps[..|ps| - 1]) + PieceText(ps[|ps| - 1])
  }

  /** `s` is a sequence of such pieces. */
  ghost predicate IsBalanced(s: string) { exists ps :: AllFit(ps) && s == PiecesText(ps) }

  // ---- The scanner comes back from every piece ----

  /** Reading `s` changes nothing and meets no stray closer. */
  ghost predicate Passes(st: Scan, s: string) { Run(st, s) == st && !HasMismatch(st, s) }

  lemma PassesConcat(st: Scan, s: string, t: string)
    requires Passes(st, s) && Passes(st, t)
    ensures Passes(st, s + t)
  {
    RunConcat(st, s, t);
  }

  lemma {:induction false} UnitsPass(st: Scan, us: seq<Unit>)
    requires st.inString && !st.escapeNext && forall i :: 0 <= i < |us| ==> UnitFits(us[i])
    ensures Passes(st, UnitsText(us))
  {
    if us != [] {
      var n := |us| - 1;
      UnitsPass(st, us[..n]);
      UnitPasses(st, us[n]);
      PassesConcat(st, UnitsText(us[..n]), UnitText(us[n]));
    }
  }

  lemma UnitPasses(st: Scan, u: Unit)
    requires st.inString && !st.escapeNext && UnitFits(u)
    ensures Passes(st, UnitText(u))
  {
    match u
    case Raw(c) => RunOne(st, c);
    case Slashed(c) =>
      RunOne(st, '\\');
      RunOne(Step(st, '\\'), c);
      RunConcat(st, ['\\'], [c]);
      assert ['\\'] + [c] == ['\\', c];
  }

  /** A text between its delimiters. */
  lemma Enclosed(st: Scan, open: char, s: string, close: char)
    requires !Mismatch(st, open) && Passes(Step(st, open), s)
    requires Step(Step(st, open), close) == st && !Mismatch(Step(st, open), close)
    ensures Passes(st, [open] + s + [close])
  {
    hide Step, Mismatch;
    var inside := Step(st, open);
    RunOne(st, open);
    RunOne(inside, close);
    RunConcat(st, [open], s);
    RunConcat(st, [open] + s, [close]);
  }

  lemma {:induction false} PiecePasses(st: Scan, p: Piece)
    requires !st.inString && !st.escapeNext && Fits(p)
    ensures Passes(st, PieceText(p))
    decreases p
  {
    hide Passes;
    match p
    case Plain(c) => OnePasses(st, c);
    case Quoted(us) =>
      UnitsPass(st.(inString := true), us);
      Enclosed(st, '"', UnitsText(us), '"');
    case Braced(ps) =>
      PiecesPass(st.(closers := st.closers + ['}']), ps);
      Enclosed(st, '{', PiecesText(ps), '}');
    case Bracketed(ps) =>
      PiecesPass(st.(closers := st.closers + [']']), ps);
      Enclosed(st, '[', PiecesText(ps), ']');
  }

  lemma OnePasses(st: Scan, c: char)
    requires !st.inString && !st.escapeNext && Fits(Plain(c))
    ensures Passes(st, [c])
  {
    RunOne(st, c);
  }

  lemma {:induction false} PiecesPass(st: Scan, ps: seq<Piece>)
    requires !st.inString && !st.escapeNext && AllFit(ps)
    ensures Passes(st, PiecesText(ps))
    decreases ps
  {
    if ps != [] {
      var n := |ps| - 1;
      assert AllFit(ps[..n]) && Fits(ps[n]);
      PiecesPass(st, ps[..n]);
      PiecePasses(st, ps[n]);
      PassesConcat(st, PiecesText(ps[..n]), PieceText(ps[n]));
    }
  }

  // ---- And every text it passes is made of pieces ----

  /** A group that is still open: its opener and the pieces since. */
  datatype Frame = Frame(brace: bool, pieces: seq<Piece>)

  /** A text under way: complete pieces, open groups, and, in a string, its units. */
  datatype Draft = Draft(base: seq<Piece>, frames: seq<Frame>, units: seq<Unit>)

  function FramesText(fs: seq<Frame>): string {
    if fs == [] then ""
    else
      var f := fs[|fs| - 1];
      FramesText(fs[..|fs| - 1]) + ((if f.brace then "{" else "[") + PiecesText(f.pieces))
  }

  function DraftText(d: Draft, inString: bool, escapeNext: bool): string {
    PiecesText(d.base) + FramesText(d.frames)
    + if inString then "\"" + UnitsText(d.units) + (if escapeNext then "\\" else "") else ""
  }

  predicate DraftFits(d: Draft) {
    && AllFit(d.base)
    && (forall i :: 0 <= i < |d.frames| ==> AllFit(d.frames[i].pieces))
    && (forall i :: 0 <= i < |d.units| ==> UnitFits(d.units[i]))
  }

  /** The draft `d` is what the scanner in state `st` has read. */
  predicate Matches(st: Scan, d: Draft) {
    && DraftFits(d) && |st.closers| == |d.frames|
    && forall i :: 0 <= i < |d.frames| ==> st.closers[i] == if d.frames[i].brace then '}' else ']'
  }

  /** One more complete piece, in the innermost open group. */
  function Added(d: Draft, p: Piece): Draft {
    if d.frames == [] then d.(base := d.base + [p])
    else
      var n := |d.frames| - 1;
      d.(frames := d.frames[..n] + [d.frames[n].(pieces := d.frames[n].pieces + [p])])
  }

  lemma PiecesSnoc(ps: seq<Piece>, p: Piece)
    ensures PiecesText(ps + [p]) == PiecesText(ps) + PieceText(p)
  {
    assert (ps + [p])[..|ps|] == ps;
  }

  lemma FramesSnoc(fs: seq<Frame>, f: Frame)
    ensures FramesText(fs + [f]) == FramesText(fs) + ((if f.brace then "{" else "[") + PiecesText(f.pieces))
  {
    assert (fs + [f])[..|fs|] == fs;
  }

  lemma AddedText(d: Draft, p: Piece)
    ensures DraftText(Added(d, p), false, false) == DraftText(d, false, false) + PieceText(p)
  {
    hide PiecesText, FramesText, PieceText;
    if d.frames == [] {
      PiecesSnoc(d.base, p);
      NoFrames();
    } else {
      var n := |d.frames| - 1;
      var f := d.frames[n];
      assert d.frames == d.frames[..n] + [f];
      PiecesSnoc(f.pieces, p);
      FramesSnoc(d.frames[..n], f);
      FramesSnoc(d.frames[..n], f.(pieces := f.pieces + [p]));
    }
  }

  lemma NoFrames()
    ensures FramesText([]) == ""
  {}

  lemma AddedMatches(st: Scan, d: Draft, p: Piece)
    requires Matches(st, d) && Fits(p)
    ensures Matches(st, Added(d, p))
  {
    hide Fits;
  }

  /** The innermost group is closed and becomes a piece of the one around it. */
  function Closed(d: Draft): Draft
    requires d.frames != []
  {
    var n := |d.frames| - 1;
    var f := d.frames[n];
    Added(d.(frames := d.frames[..n]), if f.brace then Braced(f.pieces) else Bracketed(f.pieces))
  }

  lemma ClosedText(d: Draft)
    requires d.frames != []
    ensures var close := if d.frames[|d.frames| - 1].brace then "}" else "]";
            DraftText(Closed(d), false, false) == DraftText(d, false, false) + close
  {
    hide PiecesText, FramesText, Added;
    var n := |d.frames| - 1;
    var f := d.frames[n];
    assert d.frames == d.frames[..n] + [f];
    FramesSnoc(d.frames[..n], f);
    AddedText(d.(frames := d.frames[..n]), if f.brace then Braced(f.pieces) else Bracketed(f.pieces));
  }

  lemma ClosedMatches(st: Scan, d: Draft)
    requires Matches(st, d) && d.frames != []
    ensures Matches(st.(closers := st.closers[..|st.closers| - 1]), Closed(d))
  {
    hide Added;
    var n := |d.frames| - 1;
    var f := d.frames[n];
    var p := if f.brace then Braced(f.pieces) else Bracketed(f.pieces);
    assert AllFit(f.pieces);
    AddedMatches(st.(closers := st.closers[..n]), d.(frames := d.frames[..n]), p);
  }

  lemma UnitsSnoc(us: seq<Unit>, u: Unit)
    ensures UnitsText(us + [u]) == UnitsText(us) + UnitText(u)
  {
    assert (us + [u])[..|us|] == us;
  }

  /** One more character inside a string. */
  lemma StringStep(st: Scan, d: Draft, c: char) returns (e: Draft)
    requires Matches(st, d) && st.inString
    ensures var r := Step(st, c);
            Matches(r, e) && DraftText(e, r.inString, r.escapeNext) == DraftText(d, true, st.escapeNext) + [c]
  {
    hide PiecesText, FramesText, UnitsText, Fits;
    var base := PiecesText(d.base) + FramesText(d.frames);
    if st.escapeNext {
      UnitsSnoc(d.units, Slashed(c));
      e := d.(units := d.units + [Slashed(c)]);
    } else if c == '\\' {
      e := d;
    } else if c == '"' {
      e := StringEnds(st, d);
    } else {
      UnitsSnoc(d.units, Raw(c));
      e := d.(units := d.units + [Raw(c)]);
    }
  }

  lemma StringEnds(st: Scan, d: Draft) returns (e: Draft)
    requires Matches(st, d) && st.inString && !st.escapeNext
    ensures Matches(st.(inString := false), e)
    ensures DraftText(e, false, false) == DraftText(d, true, false) + "\""
  {
    hide Added, PiecesText, FramesText, UnitsText;
    var p := Quoted(d.units);
    var rest := d.(units := []);
    AddedText(rest, p);
    AddedMatches(st.(inString := false), rest, p);
    e := Added(rest, p);
  }

  /** One more character outside any string. */
  lemma OpenStep(st: Scan, d: Draft, c: char) returns (e: Draft)
    requires Matches(st, d) && !st.inString && !st.escapeNext && !Mismatch(st, c)
    ensures var r := Step(st, c);
            Matches(r, e) && DraftText(e, r.inString, r.escapeNext) == DraftText(d, false, false) + [c]
  {
    hide PiecesText, FramesText, Fits, Added, Closed;
    NothingInside();
    if c == '"' {
      e := d.(units := []);
    } else if c == '{' || c == '[' {
      var f := Frame(c == '{', []);
      FramesSnoc(d.frames, f);
      e := d.(frames := d.frames + [f]);
    } else if IsCloser(c) {
      ClosedText(d);
      ClosedMatches(st, d);
      e := Closed(d);
    } else {
      assert Fits(Plain(c)) by { PlainFits(c); }
      AddedText(d, Plain(c));
      AddedMatches(st, d, Plain(c));
      e := Added(d, Plain(c));
    }
  }

  lemma NothingInside()
    ensures PiecesText([]) == "" && UnitsText([]) == "" && FramesText([]) == "" && AllFit([])
  {}

  lemma PlainFits(c: char)
    requires c != '"' && c != '{' && c != '[' && !IsCloser(c)
    ensures Fits(Plain(c))
  {}

  /** Every text without a stray closer is a draft: complete pieces, then the groups
      the scanner still owes a closer for, then at most one open string. */
  lemma {:induction false} DraftOf(s: string) returns (d: Draft)
    requires !HasMismatch(START, s)
    ensures var st := Run(START, s); Matches(st, d) && s == DraftText(d, st.inString, st.escapeNext)
  {
    hide Step, Mismatch, Matches, DraftText;
    if s == "" {
      d := Draft([], [], []);
      NothingDrafted();
    } else {
      var n := |s| - 1;
      var st := Run(START, s[..n]);
      d := DraftOf(s[..n]);
      StartIsSane(s[..n]);
      assert s == s[..n] + [s[n]];
      if st.inString {
        d := StringStep(st, d, s[n]);
      } else {
        d := OpenStep(st, d, s[n]);
      }
    }
  }

  lemma NothingDrafted()
    ensures Matches(START, Draft([], [], [])) && DraftText(Draft([], [], []), false, false) == ""
  {}

  lemma StartIsSane(s: string)
    ensures Run(START, s).escapeNext ==> Run(START, s).inString
  {
    RunSane(START, s);
  }

  /** A text looks truncated exactly if it is not made of complete pieces. */
  lemma TruncatedIsUnbalanced(s: string)
    ensures LooksTruncated(s) <==> !IsBalanced(s)
  {
    hide Run, HasMismatch, LooksTruncated;
    TruncationVerdict(s);
    if IsBalanced(s) {
      var ps :| AllFit(ps) && s == PiecesText(ps);
      PiecesPass(START, ps);
    }
    if !LooksTruncated(s) {
      var d := DraftOf(s);
      assert d.frames == [];
      NoFrames();
      assert s == PiecesText(d.base);
    }
  }

  // ---- Repair is the shortest way to close ----

  lemma {:induction false} ReversedAt(s: string)
    ensures |JsonRepair.Reversed(s)| == |s|
    ensures forall i :: 0 <= i < |s| ==> JsonRepair.Reversed(s)[i] == s[|s| - 1 - i]
  {
    if s != "" { ReversedAt(s[..|s| - 1]); }
  }

  function Owed(st: Scan): nat {
    (if st.inString then (if st.escapeNext then 2 else 1) else 0) + |st.closers|
  }

  lemma {:induction false} OwedFalls(st: Scan, t: string)
    requires Sane(st)
    ensures Owed(st) <= Owed(Run(st, t)) + |t|
  {
    if t != "" {
      OwedFalls(st, t[..|t| - 1]);
      RunSane(st, t[..|t| - 1]);
    }
  }

  /** What is appended: the backslash that a dangling one asks for, the quote, and
      the closers, innermost first. No shorter text closes everything. */
  lemma RepairIsShortest(s: string, t: string)
    requires var r := Run(START, s + t); !r.inString && r.closers == []
    ensures |Repaired(s)| <= |s + t|
    ensures var st := Run(START, s);
            var n := |st.closers|;
            exists close: string ::
              && |close| == n && (forall i :: 0 <= i < n ==> close[i] == st.closers[n - 1 - i])
              && Repaired(s) ==
                 s + (if st.inString && st.escapeNext then "\\" else "") + (if st.inString then "\"" else "") + close
  {
    hide Run, Step;
    var st := Run(START, s);
    RunSane(START, s);
    RunConcat(START, s, t);
    OwedFalls(st, t);
    ReversedAt(st.closers);
    var close := JsonRepair.Reversed(st.closers);
    assert |Completion(st)| == Owed(st);
    assert Repaired(s) ==
      s + (if st.inString && st.escapeNext then "\\" else "") + (if st.inString then "\"" else "") + close;
  }

  // ---- The leading object ----

  function BraceRun(st: SummaryJson.Brace, s: string): SummaryJson.Brace {
    if s == "" then st else SummaryJson.Step(BraceRun(st, s[..|s| - 1]), s[|s| - 1])
  }

  lemma {:induction false} AfterIsRun(t: string, n: nat)
    requires n <= |t|
    ensures SummaryJson.After(t, n) == BraceRun(SummaryJson.OUTSIDE, t[..n])
  {
    if n > 0 {
      AfterIsRun(t, n - 1);
      assert t[..n][..n - 1] == t[..n - 1];
    }
  }

  lemma {:induction false} BraceConcat(st: SummaryJson.Brace, s: string, t: string)
    ensures BraceRun(st, s + t) == BraceRun(BraceRun(st, s), t)
  {
    if t == "" {
      assert s + t == s;
    } else {
      assert (s + t)[..|s + t| - 1] == s + t[..|t| - 1];
      BraceConcat(st, s, t[..|t| - 1]);
    }
  }

  lemma BraceOne(st: SummaryJson.Brace, c: char)
    ensures BraceRun(st, [c]) == SummaryJson.Step(st, c)
  {
    assert [c][..0] == "";
    assert BraceRun(st, "") == st;
  }

  /** Reading `s` from `st` comes back to `st` and never goes below its depth. */
  ghost predicate Stays(st: SummaryJson.Brace, s: string) {
    BraceRun(st, s) == st && forall k :: 0 <= k <= |s| ==> BraceRun(st, s[..k]).depth >= st.depth
  }

  lemma StaysConcat(st: SummaryJson.Brace, s: string, t: string)
    requires Stays(st, s) && Stays(st, t)
    ensures Stays(st, s + t)
  {
    hide BraceRun;
    BraceConcat(st, s, t);
    forall k | 0 <= k <= |s + t| ensures BraceRun(st, (s + t)[..k]).depth >= st.depth {
      if k <= |s| {
        assert (s + t)[..k] == s[..k];
      } else {
        assert (s + t)[..k] == s + t[..k - |s|];
        BraceConcat(st, s, t[..k - |s|]);
      }
    }
  }

  lemma StaysNothing(st: SummaryJson.Brace)
    ensures Stays(st, "")
  {}

  lemma StaysEnclosed(st: SummaryJson.Brace, open: char, s: string, close: char)
    requires var inside := SummaryJson.Step(st, open);
             && inside.depth >= st.depth && Stays(inside, s) && SummaryJson.Step(inside, close) == st
    ensures Stays(st, [open] + s + [close])
  {
    hide BraceRun, SummaryJson.Step;
    var inside := SummaryJson.Step(st, open);
    var all := [open] + s + [close];
    BraceOne(st, open);
    BraceOne(inside, close);
    BraceConcat(st, [open], s);
    BraceConcat(st, [open] + s, [close]);
    forall k | 0 <= k <= |all| ensures BraceRun(st, all[..k]).depth >= st.depth {
      if k == 0 {
        StaysNothing(st);
        assert all[..0] == ""[..0];
      } else if k <= |s| + 1 {
        assert all[..k] == [open] + s[..k - 1];
        BraceConcat(st, [open], s[..k - 1]);
      } else {
        assert all[..k] == all;
      }
    }
  }

  lemma {:induction false} UnitsStay(st: SummaryJson.Brace, us: seq<Unit>)
    requires st.inString && !st.escaped && forall i :: 0 <= i < |us| ==> UnitFits(us[i])
    ensures Stays(st, UnitsText(us))
  {
    hide Stays;
    if us == [] {
      StaysNothing(st);
    } else {
      var n := |us| - 1;
      UnitsStay(st, us[..n]);
      UnitStays(st, us[n]);
      StaysConcat(st, UnitsText(us[..n]), UnitText(us[n]));
    }
  }

  lemma UnitStays(st: SummaryJson.Brace, u: Unit)
    requires st.inString && !st.escaped && UnitFits(u)
    ensures Stays(st, UnitText(u))
  {
    match u
    case Raw(c) => OneStays(st, c);
    case Slashed(c) =>
      StaysNothing(SummaryJson.Step(st, '\\'));
      StaysEnclosed(st, '\\', "", c);
      assert ['\\'] + "" + [c] == ['\\', c];
  }

  lemma OneStays(st: SummaryJson.Brace, c: char)
    requires SummaryJson.Step(st, c) == st
    ensures Stays(st, [c])
  {
    BraceOne(st, c);
    StaysNothing(st);
    forall k | 0 <= k <= 1 ensures BraceRun(st, [c][..k]).depth >= st.depth {
      if k == 1 { assert [c][..1] == [c]; } else { assert [c][..0] == ""; }
    }
  }

  lemma {:induction false} PieceStays(st: SummaryJson.Brace, p: Piece)
    requires !st.inString && !st.escaped && Fits(p)
    ensures Stays(st, PieceText(p))
    decreases p
  {
    hide Stays;
    match p
    case Plain(c) => OneStays(st, c);
    case Quoted(us) =>
      UnitsStay(st.(inString := true), us);
      StaysEnclosed(st, '"', UnitsText(us), '"');
    case Braced(ps) =>
      PiecesStay(st.(depth := st.depth + 1), ps);
      StaysEnclosed(st, '{', PiecesText(ps), '}');
    case Bracketed(ps) =>
      PiecesStay(st, ps);
      StaysEnclosed(st, '[', PiecesText(ps), ']');
  }

  lemma {:induction false} PiecesStay(st: SummaryJson.Brace, ps: seq<Piece>)
    requires !st.inString && !st.escaped && AllFit(ps)
    ensures Stays(st, PiecesText(ps))
    decreases ps
  {
    hide Stays;
    if ps == [] {
      StaysNothing(st);
    } else {
      var n := |ps| - 1;
      assert AllFit(ps[..n]) && Fits(ps[n]);
      PiecesStay(st, ps[..n]);
      PieceStays(st, ps[n]);
      StaysConcat(st, PiecesText(ps[..n]), PieceText(ps[n]));
    }
  }

  /** Whatever follows it, a complete group in braces is the leading object: all of it
      and no more, whatever its strings contain. */
  lemma GroupIsLeading(ps: seq<Piece>, rest: string)
    requires AllFit(ps)
    ensures var group := "{" + PiecesText(ps) + "}";
            SummaryJson.ObjectLength(group + rest) == Some(|group|)
  {
    hide SummaryJson.After, SummaryJson.Step, BraceRun, SummaryJson.ObjectLength;
    var inner := PiecesText(ps);
    var group := "{" + inner + "}";
    var t := group + rest;
    var inside := SummaryJson.Brace(1, false, false);
    OneDeeper();
    PiecesStay(inside, ps);
    BraceConcat(SummaryJson.OUTSIDE, "{", inner);
    BraceConcat(SummaryJson.OUTSIDE, "{" + inner, "}");
    BraceOne(SummaryJson.OUTSIDE, '{');
    BraceOne(inside, '}');
    AfterIsRun(t, |group|);
    assert t[..|group|] == group;
    forall k | 1 <= k < |group| ensures SummaryJson.After(t, k).depth >= 1 {
      AfterIsRun(t, k);
      assert t[..k] == "{" + inner[..k - 1];
      BraceConcat(SummaryJson.OUTSIDE, "{", inner[..k - 1]);
    }
    SummaryJson.ObjectIs(t, |group|);
  }

  lemma OneDeeper()
    ensures SummaryJson.Step(SummaryJson.OUTSIDE, '{') == SummaryJson.Brace(1, false, false)
    ensures SummaryJson.Step(SummaryJson.Brace(1, false, false), '}') == SummaryJson.OUTSIDE
  {}
}
