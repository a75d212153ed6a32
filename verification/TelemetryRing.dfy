/** The ring policy of a telemetry sink, down to its bytes (buffer.rs). */
module TelemetryRing {
  import opened Text

  const MAX_EVENTS: nat := 512
  const MAX_BYTES: nat := 256 * 1024
  const MAX_LINE_BYTES: nat := 4096
  const PROBE_BYTES: nat := 4096

  /** Where the first line feed is, or the end. */
  function LineEnd(s: string): (n: nat)
    ensures n <= |s| && (n < |s| ==> s[n] == '\n')
    ensures forall i :: 0 <= i < n ==> s[i] != '\n'
  {
    if s == "" || s[0] == '\n' then 0 else 1 + LineEnd(s[1..])
  }

  function StripCr(s: string): string {
    if s != "" && s[|s| - 1] == '\r' then s[..|s| - 1] else s
  }

  /** `str::lines`. */
  function Lines(s: string): seq<string> {
    if s == "" then []
    else
      var n := LineEnd(s);
      if n == |s| then [s] else [StripCr(s[..n])] + Lines(s[n + 1..])
  }

  function NonBlank(ls: seq<string>): seq<string> {
    if ls == [] then []
    else (if IsBlank(ls[0]) then [] else [ls[0]]) + NonBlank(ls[1..])
  }

  /** The file that holds these lines, each with its line feed. */
  function Join(ls: seq<string>): string {
    if ls == [] then "" else ls[0] + "\n" + Join(ls[1..])
  }

  function ByteLen(ls: seq<string>): nat {
    if ls == [] then 0 else Bytes(ls[0]) + 1 + ByteLen(ls[1..])
  }

  /** `while kept.len() > 1 && byte_len(&kept) > MAX_BYTES { kept.remove(0) }`. */
  function DropOldest(kept: seq<string>): seq<string> {
    if |kept| > 1 && ByteLen(kept) > MAX_BYTES then DropOldest(kept[1..]) else kept
  }

  function Newest(ls: seq<string>, n: nat): (r: seq<string>)
    ensures |r| <= n
  {
    if |ls| <= n then ls else ls[|ls| - n..]
  }

  /** What `enforce_ring` leaves of a file when nobody contends for the lock. */
  function Enforced(file: string): string {
    if Bytes(file) < PROBE_BYTES then file
    else
      var lines := NonBlank(Lines(file));
      if |lines| <= MAX_EVENTS && Bytes(file) <= MAX_BYTES then file
      else Join(DropOldest(Newest(lines, MAX_EVENTS)))
  }

  predicate Accepted(line: string, limit: nat) { line != "" && Bytes(line) + 1 <= limit }

  function Appended(file: string, line: string, limit: nat): string {
    if Accepted(line, limit) then Enforced(file + line + "\n") else file
  }

  /** The sink after all these appends, oldest first. */
  function AppendAll(lines: seq<string>, limit: nat): string {
    if lines == [] then "" else Appended(AppendAll(lines[..|lines| - 1], limit), lines[|lines| - 1], limit)
  }

  /** A sink file, appended to and rewritten in place. */
  class Sink {
    var contents: string

    constructor ()
      ensures contents == ""
    {
      contents := "";
    }

    method EnforceRing()
      modifies this
      ensures contents == Enforced(old(contents))
    {
      if Bytes(contents) < PROBE_BYTES { return; }
      var lines := NonBlank(Lines(contents));
      if |lines| <= MAX_EVENTS && Bytes(contents) <= MAX_BYTES { return; }
      var kept := Newest(lines, MAX_EVENTS);
      while |kept| > 1 && ByteLen(kept) > MAX_BYTES
        invariant DropOldest(kept) == DropOldest(Newest(lines, MAX_EVENTS))
      {
        kept := kept[1..];
      }
      contents := Join(kept);
    }

    method Append(line: string, limit: nat) returns (ok: bool)
      modifies this
      ensures ok == Accepted(line, limit)
      ensures contents == Appended(old(contents), line, limit)
    {
      if line == "" || Bytes(line) + 1 > limit { return false; }
      contents := contents + line + "\n";
      EnforceRing();
      return true;
    }
  }

  // ---- Files and lines ----

  predicate NoBreaks(s: string) { forall i :: 0 <= i < |s| ==> s[i] != '\n' && s[i] != '\r' }

  /** A line as the writers make them: no line breaks, not blank, at least `least` bytes. */
  predicate GoodLine(l: string, least: nat) {
    NoBreaks(l) && !IsBlank(l) && least <= Bytes(l)
  }

  predicate GoodLines(ls: seq<string>, least: nat) {
    forall i :: 0 <= i < |ls| ==> GoodLine(ls[i], least)
  }

  lemma {:induction false} LineEndOf(s: string, t: string)
    requires NoBreaks(s)
    ensures LineEnd(s + "\n" + t) == |s|
  {
    var u := s + "\n" + t;
    if s != "" {
      assert u[1..] == s[1..] + "\n" + t;
      LineEndOf(s[1..], t);
    }
  }

  /** Reading back the lines of a file gives the lines it was written from. */
  lemma {:induction false} LinesOfJoin(ls: seq<string>)
    requires GoodLines(ls, 0)
    ensures Lines(Join(ls)) == ls && NonBlank(ls) == ls
    ensures Bytes(Join(ls)) == ByteLen(ls)
  {
    hide GoodLine, Lines, Bytes;
    if ls == [] {
      NoLines();
    } else {
      assert GoodLine(ls[0], 0) && GoodLines(ls[1..], 0);
      LinesOfJoin(ls[1..]);
      FirstLine(ls[0], Join(ls[1..]));
      GoodIsNotBlank(ls[0]);
      assert [ls[0]] + ls[1..] == ls;
    }
  }

  lemma NoLines()
    ensures Lines("") == [] && Bytes("") == 0
  {}

  lemma GoodIsNotBlank(l: string)
    requires GoodLine(l, 0)
    ensures !IsBlank(l)
  {}

  lemma FirstLine(l: string, rest: string)
    requires GoodLine(l, 0)
    ensures Lines(l + "\n" + rest) == [l] + Lines(rest)
    ensures Bytes(l + "\n" + rest) == Bytes(l) + 1 + Bytes(rest)
  {
    hide IsBlank;
    var u := l + "\n" + rest;
    LineEndOf(l, rest);
    assert u[..|l|] == l && u[|l| + 1..] == rest && StripCr(l) == l;
    BytesConcat(l + "\n", rest);
    BytesConcat(l, "\n");
    assert Bytes("\n") == 1;
  }

  // ---- Files written by others ----

  /** A line as a text file may hold it: ended by a line feed, with or without a
      carriage return before it. */
  datatype RawLine = RawLine(text: string, cr: bool)

  predicate GoodRaw(l: RawLine) {
    (forall i :: 0 <= i < |l.text| ==> l.text[i] != '\n') && !(l.text != "" && l.text[|l.text| - 1] == '\r')
  }

  function RawText(ls: seq<RawLine>): string {
    if ls == [] then "" else ls[0].text + (if ls[0].cr then "\r\n" else "\n") + RawText(ls[1..])
  }

  function Texts(ls: seq<RawLine>): seq<string> { if ls == [] then [] else [ls[0].text] + Texts(ls[1..]) }

  lemma {:induction false} FirstFeed(s: string, t: string)
    requires forall i :: 0 <= i < |s| ==> s[i] != '\n'
    ensures LineEnd(s + "\n" + t) == |s|
    ensures t == "" ==> LineEnd(s) == |s|
  {
    var u := s + "\n" + t;
    if s != "" {
      assert u[1..] == s[1..] + "\n" + t;
      FirstFeed(s[1..], t);
    }
  }

  lemma RawFirst(l: RawLine, rest: string)
    requires GoodRaw(l)
    ensures Lines(l.text + (if l.cr then "\r\n" else "\n") + rest) == [l.text] + Lines(rest)
  {
    var s := if l.cr then l.text + "\r" else l.text;
    var u := l.text + (if l.cr then "\r\n" else "\n") + rest;
    assert u == s + "\n" + rest;
    FirstFeed(s, rest);
    assert u[..|s|] == s && u[|s| + 1..] == rest;
    assert StripCr(s) == l.text;
  }

  /** Both line endings are read, and a last line without one. */
  lemma {:induction false} LinesOfRaw(ls: seq<RawLine>, last: string)
    requires (forall i :: 0 <= i < |ls| ==> GoodRaw(ls[i])) && forall i :: 0 <= i < |last| ==> last[i] != '\n'
    ensures Lines(RawText(ls) + last) == Texts(ls) + if last == "" then [] else [last]
  {
    hide Lines, GoodRaw;
    if ls == [] {
      assert RawText(ls) + last == last;
      LastLine(last);
    } else {
      LinesOfRaw(ls[1..], last);
      var l := ls[0];
      RawFirst(l, RawText(ls[1..]) + last);
      assert RawText(ls) + last == l.text + (if l.cr then "\r\n" else "\n") + (RawText(ls[1..]) + last);
    }
  }

  lemma LastLine(last: string)
    requires forall i :: 0 <= i < |last| ==> last[i] != '\n'
    ensures Lines(last) == if last == "" then [] else [last]
  {
    FirstFeed(last, "");
  }

  /** Blank lines are passed over wherever they stand, and only they. */
  lemma {:induction false} NonBlankExact(a: seq<string>, l: string, b: seq<string>)
    ensures NonBlank(a + [l] + b)
         == NonBlank(a) + (if forall i :: 0 <= i < |l| ==> IsWhitespace(l[i]) then [] else [l]) + NonBlank(b)
  {
    var s := a + [l] + b;
    if a == [] {
      assert s[0] == l && s[1..] == b;
    } else {
      assert s[0] == a[0] && s[1..] == a[1..] + [l] + b;
      NonBlankExact(a[1..], l, b);
    }
  }

  /** How many of the oldest lines go: down to 512, then on while more than one
      line is left and they exceed 256 KiB. */
  predicate Oldest(ls: seq<string>, k: nat) {
    && k <= |ls| && |ls| - k <= 512
    && (|ls| - k > 1 ==> ByteLen(ls[k..]) <= 262144)
    && (k > 0 ==> |ls| - k + 1 > 512 || (|ls| - k >= 1 && ByteLen(ls[k - 1..]) > 262144))
  }

  lemma {:induction false} DropOldestExact(ls: seq<string>) returns (k: nat)
    ensures k <= |ls| && DropOldest(ls) == ls[k..]
    ensures |ls| - k > 1 ==> ByteLen(ls[k..]) <= 262144
    ensures k > 0 ==> |ls| - k >= 1 && ByteLen(ls[k - 1..]) > 262144
  {
    if |ls| > 1 && ByteLen(ls) > MAX_BYTES {
      var m := DropOldestExact(ls[1..]);
      k := m + 1;
      assert ls[1..][m..] == ls[k..];
      if m > 0 { assert ls[1..][m - 1..] == ls[k - 1..]; } else { assert ls[k - 1..] == ls; }
    } else {
      k := 0;
      assert ls[0..] == ls;
    }
  }

  /** Whatever a file holds, the ring leaves it alone below 4096 bytes or within
      both limits; otherwise it keeps its newest lines that are not blank. */
  lemma EnforcedExact(file: string) returns (k: nat)
    ensures var ls := NonBlank(Lines(file));
            && Oldest(ls, k)
            && Enforced(file) ==
               if Bytes(file) < 4096 || (|ls| <= 512 && Bytes(file) <= 262144) then file else Join(ls[k..])
  {
    hide Oldest, DropOldest, NonBlank, Lines, Join, Bytes, Newest;
    k := OldestGo(NonBlank(Lines(file)));
  }

  /** A line is taken unless it is empty or, with its line end, longer than the limit. */
  lemma AppendedExact(file: string, line: string, limit: nat)
    ensures line == "" || Bytes(line) >= limit ==> Appended(file, line, limit) == file
    ensures line != "" && Bytes(line) < limit ==> Appended(file, line, limit) == Enforced(file + line + "\n")
  {}

  lemma OldestGo(ls: seq<string>) returns (k: nat)
    ensures Oldest(ls, k) && DropOldest(Newest(ls, 512)) == ls[k..]
  {
    hide DropOldest, ByteLen;
    var kept := Newest(ls, 512);
    var m := DropOldestExact(kept);
    var o := |ls| - |kept|;
    k := o + m;
    TailOfTail(ls, o, m);
    if m > 0 { TailOfTail(ls, o, m - 1); }
  }

  lemma TailOfTail(ls: seq<string>, o: nat, m: nat)
    requires o + m <= |ls|
    ensures ls[o..][m..] == ls[o + m..]
  {}

  lemma {:induction false} JoinSnoc(ls: seq<string>, l: string)
    ensures Join(ls + [l]) == Join(ls) + l + "\n"
    ensures ByteLen(ls + [l]) == ByteLen(ls) + Bytes(l) + 1
  {
    if ls == [] {
      assert ls + [l] == [l];
      assert Join([]) == "" && [l][1..] == [];
      assert l + "\n" + "" == "" + l + "\n";
    } else {
      assert (ls + [l])[0] == ls[0] && (ls + [l])[1..] == ls[1..] + [l];
      JoinSnoc(ls[1..], l);
      assert ls[0] + "\n" + (Join(ls[1..]) + l + "\n") == (ls[0] + "\n" + Join(ls[1..])) + l + "\n";
    }
  }

  // ---- The longest suffix within both limits ----

  predicate Fits(ls: seq<string>) { |ls| <= 512 && ByteLen(ls) <= 262144 }

  function Longest(h: seq<string>): (r: seq<string>)
    ensures Fits(r)
  {
    if Fits(h) then h else Longest(h[1..])
  }

  /** `Longest(h)` is a suffix of `h` that fits, and no longer suffix does. */
  lemma {:induction false} LongestIsLongest(h: seq<string>) returns (k: nat)
    ensures k <= |h| && Longest(h) == h[k..]
    ensures forall j :: 0 <= j < k ==> !Fits(h[j..])
  {
    if Fits(h) {
      k := 0;
      assert h[0..] == h;
    } else {
      var m := LongestIsLongest(h[1..]);
      k := m + 1;
      assert h[k..] == h[1..][m..];
      forall j | 0 <= j < k ensures !Fits(h[j..]) {
        if j == 0 { assert h[0..] == h; } else { assert h[j..] == h[1..][j - 1..]; }
      }
    }
  }

  lemma FitsPrefix(h: seq<string>, l: string)
    requires Fits(h + [l])
    ensures Fits(h)
  {
    JoinSnoc(h, l);
  }

  /** What the ring has already forgotten can never matter again. */
  lemma {:induction false} LongestSnoc(h: seq<string>, l: string)
    ensures Longest(Longest(h) + [l]) == Longest(h + [l])
  {
    if !Fits(h) {
      assert !Fits(h + [l]) by {
        if Fits(h + [l]) { FitsPrefix(h, l); }
      }
      assert (h + [l])[1..] == h[1..] + [l];
      LongestSnoc(h[1..], l);
    }
  }

  /** Every line fits a sink on its own. */
  predicate EachFits(ls: seq<string>) {
    forall i :: 0 <= i < |ls| ==> Bytes(ls[i]) + 1 <= MAX_BYTES
  }

  lemma {:induction false} DropOldestIsLongest(ls: seq<string>)
    requires |ls| <= MAX_EVENTS && EachFits(ls)
    ensures DropOldest(ls) == Longest(ls)
  {
    if |ls| > 1 && ByteLen(ls) > MAX_BYTES {
      DropOldestIsLongest(ls[1..]);
    } else if |ls| == 1 {
      assert ls[1..] == [];
      assert ByteLen(ls) == Bytes(ls[0]) + 1;
    }
  }

  lemma {:induction false} NewestKeepsLongest(ls: seq<string>)
    ensures Longest(Newest(ls, MAX_EVENTS)) == Longest(ls)
  {
    if |ls| > MAX_EVENTS {
      NewestKeepsLongest(ls[1..]);
      assert Newest(ls, MAX_EVENTS) == Newest(ls[1..], MAX_EVENTS);
    }
  }

  lemma {:induction false} ManyLinesManyBytes(ls: seq<string>)
    requires GoodLines(ls, 7)
    ensures 8 * |ls| <= ByteLen(ls)
  {
    hide IsBlank, NoBreaks, Bytes;
    if ls != [] {
      assert GoodLine(ls[0], 7) && GoodLines(ls[1..], 7);
      ManyLinesManyBytes(ls[1..]);
    }
  }

  /** One pass of the ring over a file of good lines leaves the longest suffix
      exactly unless the file has too many lines and is too small to be probed. */
  lemma EnforcedIsLongest(ls: seq<string>)
    requires GoodLines(ls, 0) && EachFits(ls)
    ensures Enforced(Join(ls)) == Join(Longest(ls)) <==> |ls| <= 512 || ByteLen(ls) >= 4096
  {
    hide GoodLine, Bytes, DropOldest;
    LinesOfJoin(ls);
    if ByteLen(ls) >= PROBE_BYTES {
      DropOldestIsLongest(Newest(ls, MAX_EVENTS));
      NewestKeepsLongest(ls);
    } else if |ls| > MAX_EVENTS {
      LongestKeepsGood(ls, 0);
      LinesOfJoin(Longest(ls));
    }
  }

  lemma {:induction false} LongestKeepsGood(h: seq<string>, least: nat)
    requires GoodLines(h, least) && EachFits(h)
    ensures GoodLines(Longest(h), least) && EachFits(Longest(h))
  {
    if !Fits(h) {
      LongestKeepsGood(h[1..], least);
    }
  }

  lemma EmptyJoin()
    ensures Join([]) == "" && Longest([]) == []
  {}

  predicate AllAccepted(ls: seq<string>, limit: nat) {
    forall i :: 0 <= i < |ls| ==> Accepted(ls[i], limit)
  }

  /** The last 513 lines of a history are too many for the ring and too few
      bytes for its probe. */
  predicate SlipsBy(h: seq<string>) {
    |h| > 512 && ByteLen(h[|h| - 513..]) < 4096
  }

  /** What is in the file when the ring looks slips by exactly when the end of the
      history does. */
  lemma SlipsWithHistory(g: seq<string>, l: string)
    ensures var f := Longest(g) + [l];
            |f| <= MAX_EVENTS || ByteLen(f) >= PROBE_BYTES <==> !SlipsBy(g + [l])
  {
    hide Longest, ByteLen;
    var k := LongestIsLongest(g);
    var f, h := Longest(g) + [l], g + [l];
    assert f == h[k..];
    if |f| <= MAX_EVENTS && |h| > MAX_EVENTS {
      var o := |g| - MAX_EVENTS;
      assert o < k && !Fits(g[o..]);
      JoinSnoc(g[o..], l);
      assert g[o..] + [l] == h[o..];
    }
  }

  /** One more append keeps the sink at the longest suffix exactly if the end of
      the history does not slip by. */
  lemma AppendKeepsLongest(g: seq<string>, l: string, limit: nat)
    requires limit <= MAX_BYTES && GoodLines(g + [l], 0) && AllAccepted(g + [l], limit)
    ensures Appended(Join(Longest(g)), l, limit) == Join(Longest(g + [l])) <==> !SlipsBy(g + [l])
  {
    hide Enforced, GoodLine, Longest, Bytes, SlipsBy;
    var h := g + [l];
    assert h[|g|] == l && forall i :: 0 <= i < |g| ==> g[i] == h[i];
    assert GoodLines(g, 0) && EachFits(g) && GoodLine(l, 0);
    LongestKeepsGood(g, 0);
    JoinSnoc(Longest(g), l);
    EnforcedIsLongest(Longest(g) + [l]);
    LongestSnoc(g, l);
    SlipsWithHistory(g, l);
  }

  predicate HoldsLongest(h: seq<string>, limit: nat) { AppendAll(h, limit) == Join(Longest(h)) }

  /** The sink is exactly the longest suffix of the history within 512 lines and
      256 KiB, after every append of the history, if and only if no 513 lines in a
      row amount to less than 4096 bytes. */
  lemma {:induction false} SinkIsLongestSuffix(h: seq<string>, limit: nat)
    requires limit <= MAX_BYTES && GoodLines(h, 0) && AllAccepted(h, limit)
    ensures (forall n :: 0 <= n <= |h| ==> HoldsLongest(h[..n], limit))
       <==> (forall n :: 0 <= n <= |h| ==> !SlipsBy(h[..n]))
  {
    hide SlipsBy, Longest, GoodLine, Accepted, Appended;
    if h == [] {
      EmptyJoin();
      NothingSlips();
      assert h[..0] == [];
    } else {
      var m := |h| - 1;
      var g, l := h[..m], h[m];
      assert g + [l] == h && h[..|h|] == h;
      SinkIsLongestSuffix(g, limit);
      assert forall n :: 0 <= n <= m ==> g[..n] == h[..n];
      assert g[..m] == g;
      AppendKeepsLongest(g, l, limit);
    }
  }

  lemma NothingSlips()
    ensures !SlipsBy([])
  {}

  /** Lines of at least seven bytes never slip by. */
  lemma SevenBytesSuffice(h: seq<string>, limit: nat)
    requires limit <= MAX_BYTES && GoodLines(h, 7) && AllAccepted(h, limit)
    ensures AppendAll(h, limit) == Join(Longest(h))
  {
    hide GoodLine, Accepted, Longest;
    assert GoodLines(h, 0) by { SevenIsMore(h); }
    forall n | 0 <= n <= |h| ensures !SlipsBy(h[..n]) {
      if n > MAX_EVENTS {
        var t := h[..n][n - (MAX_EVENTS + 1)..];
        assert GoodLines(t, 7);
        ManyLinesManyBytes(t);
      }
    }
    SinkIsLongestSuffix(h, limit);
    assert h[..|h|] == h;
    assert HoldsLongest(h[..|h|], limit);
  }

  lemma SevenIsMore(h: seq<string>)
    requires GoodLines(h, 7)
    ensures GoodLines(h, 0)
  {
    assert forall i :: 0 <= i < |h| && GoodLine(h[i], 7) ==> GoodLine(h[i], 0);
  }

  // ---- Six bytes do not suffice ----

  const SIX := "\"aaaa\""

  function Copies(n: nat): seq<string> { seq(n, _ => SIX) }

  lemma SixIsSix()
    ensures Bytes(SIX) == 6 && GoodLine(SIX, 6)
  {
    assert Bytes(SIX[5..]) == 1 && SIX[4..][1..] == SIX[5..];
    assert Bytes(SIX[4..]) == 2 && SIX[3..][1..] == SIX[4..];
    assert Bytes(SIX[3..]) == 3 && SIX[2..][1..] == SIX[3..];
    assert Bytes(SIX[2..]) == 4 && SIX[1..][1..] == SIX[2..];
    assert Bytes(SIX[1..]) == 5;
    assert !IsWhitespace(SIX[0]);
  }

  lemma {:induction false} SmallFilesAreNotProbed(n: nat)
    requires 7 * n < PROBE_BYTES
    ensures AppendAll(Copies(n), MAX_LINE_BYTES) == Join(Copies(n))
    ensures ByteLen(Copies(n)) == 7 * n
  {
    SixIsSix();
    if n == 0 {
      assert Copies(0) == [];
      assert Join([]) == "" && ByteLen([]) == 0;
    } else {
      var h := Copies(n);
      assert h[..n - 1] == Copies(n - 1) && h[n - 1] == SIX && h == Copies(n - 1) + [SIX];
      SmallFilesAreNotProbed(n - 1);
      JoinSnoc(Copies(n - 1), SIX);
      assert GoodLines(h, 0);
      LinesOfJoin(h);
    }
  }

  /** With lines of six bytes the probe hides a sink of 513 lines. */
  lemma SixByteLinesOverflow()
    ensures var h := Copies(MAX_EVENTS + 1);
            GoodLines(h, 6) && AllAccepted(h, MAX_LINE_BYTES)
            && AppendAll(h, MAX_LINE_BYTES) == Join(h) && Longest(h) != h
  {
    SixIsSix();
    SmallFilesAreNotProbed(MAX_EVENTS + 1);
  }
}
