/** The files of a telemetry home and the bodies that run under its lock
    (buffer.rs, envelope.rs, client.rs). Every body is one atomic step; a file
    operation that fails is an argument of the step. */
module TelemetryFiles {
  import opened Common

  /** One buffered line: when it was appended, and how many bytes it has. */
  datatype Entry = Entry(serial: nat, size: nat)

  /** A batch on its way out: which drain it came from, and its events. */
  datatype Batch = Batch(drain: nat, events: seq<Entry>)

  /** The `disabled` file: missing, readable with a generation nonce, or present
      but unreadable or oversized. */
  datatype Tombstone = Absent | Generation(nonce: nat) | Unreadable

  datatype Home = Home(
    tombstone: Tombstone,
    buffer: seq<Entry>,
    dryrun: seq<Batch>,
    installId: Option<nat>,
    state: Option<nat>)

  predicate Stands(h: Home) { h.tombstone != Absent }

  /** `tombstone_generation`: `None` is an error, otherwise what was observed. */
  function Observe(h: Home): Option<Option<nat>> {
    match h.tombstone
    case Absent => Some(None)
    case Generation(g) => Some(Some(g))
    case Unreadable => None
  }

  /** Which of the four removals of a wipe succeed. */
  datatype Cleared = Cleared(buffer: bool, dryrun: bool, installId: bool, state: bool)

  /** `lands`: the line reaches the file. */
  function Append(h: Home, e: Entry, lands: bool): Home {
    if Stands(h) || !lands then h else h.(buffer := h.buffer + [e])
  }

  /** Compaction keeps a suffix of the buffer. */
  function Compact(h: Home, k: nat): Home
    requires k <= |h.buffer|
  {
    if Stands(h) then h else h.(buffer := h.buffer[k..])
  }

  /** A drain takes the lines; or its truncation fails before it empties the
      file, or after. In the last two cases it returns nothing. */
  datatype DrainOutcome = Took | Untouched | Lost

  function Drain(h: Home, o: DrainOutcome): Home {
    if Stands(h) || o == Untouched then h else h.(buffer := [])
  }

  function DrainLines(h: Home, o: DrainOutcome): seq<Entry> {
    if Stands(h) || o != Took then [] else h.buffer
  }

  /** Whether a wipe gets past the tombstone: one is there already, or writing it works. */
  predicate WipeProceeds(h: Home, written: bool) { h.tombstone.Generation? || written }

  function Wipe(h: Home, nonce: nat, written: bool, done: Cleared): Home {
    if !WipeProceeds(h, written) then h
    else Home(
      if h.tombstone.Generation? then h.tombstone else Generation(nonce),
      if done.buffer then [] else h.buffer,
      if done.dryrun then [] else h.dryrun,
      if done.installId then None else h.installId,
      if done.state then None else h.state)
  }

  /** The two checks of `arm`: the exact generation, and a fresh permission. */
  predicate ArmAllowed(h: Home, observed: Option<nat>, permitted: bool) {
    Observe(h) == Some(observed) && permitted
  }

  /** Whether `arm` gets to truncating: both checks hold, and a tombstone that
      stands can be removed. */
  predicate ArmProceeds(h: Home, observed: Option<nat>, permitted: bool, removed: bool) {
    ArmAllowed(h, observed, permitted) && (Stands(h) ==> removed)
  }

  function Arm(h: Home, observed: Option<nat>, permitted: bool, removed: bool, truncated: bool): Home {
    if !ArmProceeds(h, observed, permitted, removed) then h
    else h.(tombstone := Absent, buffer := if truncated then [] else h.buffer)
  }

  /** `valid` says whether the stored id is a current UUID; `written`, here and
      below, whether the new file could be written. */
  function Identify(h: Home, valid: bool, minted: nat, written: bool): Home {
    if Stands(h) || (valid && h.installId.Some?) || !written then h else h.(installId := Some(minted))
  }

  function WriteState(h: Home, s: nat, written: bool): Home {
    if Stands(h) || !written then h else h.(state := Some(s))
  }

  function SendDryRun(h: Home, b: Batch): Home {
    if Stands(h) then h else h.(dryrun := h.dryrun + [b])
  }

  // ---- Batch assembly ----

  const BATCH_MAX_EVENTS: nat := 200
  const BATCH_MAX_BYTES: nat := 64 * 1024

  function Sizes(s: seq<Entry>): nat {
    if s == [] then 0 else Sizes(s[..|s| - 1]) + s[|s| - 1].size
  }

  predicate Increasing(s: seq<Entry>) {
    forall i, j :: 0 <= i < j < |s| ==> s[i].serial < s[j].serial
  }

  /** The batch made of `lines` after `taken`: what does not parse or is out of
      bounds is skipped (`good` is the verdict), and either cap stops the walk. */
  function Parsed(lines: seq<Entry>, good: set<nat>, taken: seq<Entry>): seq<Entry> {
    if lines == [] || |taken| >= BATCH_MAX_EVENTS || Sizes(taken) + lines[0].size > BATCH_MAX_BYTES then taken
    else Parsed(lines[1..], good, if lines[0].serial in good then taken + [lines[0]] else taken)
  }

  lemma SizesSnoc(s: seq<Entry>, e: Entry)
    ensures Sizes(s + [e]) == Sizes(s) + e.size
  {
    assert (s + [e])[..|s|] == s;
  }

  /** A batch respects both caps and is a subsequence of what was drained. */
  lemma {:induction false} ParsedIsBounded(lines: seq<Entry>, good: set<nat>, taken: seq<Entry>)
    requires |taken| <= BATCH_MAX_EVENTS && Sizes(taken) <= BATCH_MAX_BYTES
    ensures var r := Parsed(lines, good, taken);
            && |r| <= BATCH_MAX_EVENTS && Sizes(r) <= BATCH_MAX_BYTES
            && (forall e :: e in r ==> e in taken || (e in lines && e.serial in good))
            && (Increasing(taken + lines) ==> Increasing(r))
  {
    if lines == [] {
      assert taken + lines == taken;
    } else if |taken| >= BATCH_MAX_EVENTS || Sizes(taken) + lines[0].size > BATCH_MAX_BYTES {
      IncreasingPart(taken, lines);
    } else {
      var t := if lines[0].serial in good then taken + [lines[0]] else taken;
      SizesSnoc(taken, lines[0]);
      assert [lines[0]] + lines[1..] == lines;
      assert taken + [lines[0]] + lines[1..] == taken + lines;
      if Increasing(taken + lines) { IncreasingGap(taken, lines[0], lines[1..]); }
      ParsedIsBounded(lines[1..], good, t);
    }
  }

  lemma IncreasingPart(a: seq<Entry>, c: seq<Entry>)
    ensures Increasing(a + c) ==> Increasing(a)
  {
    if Increasing(a + c) {
      forall i, j | 0 <= i < j < |a| ensures a[i].serial < a[j].serial {
        assert (a + c)[i] == a[i] && (a + c)[j] == a[j];
      }
    }
  }

  lemma IncreasingGap(a: seq<Entry>, e: Entry, c: seq<Entry>)
    requires Increasing(a + [e] + c)
    ensures Increasing(a + c)
  {
    var s := a + [e] + c;
    forall i, j | 0 <= i < j < |a + c| ensures (a + c)[i].serial < (a + c)[j].serial {
      var i' := if i < |a| then i else i + 1;
      var j' := if j < |a| then j else j + 1;
      assert (a + c)[i] == s[i'] && (a + c)[j] == s[j'];
    }
  }

  /** The lines that parse and are within bounds, in order. */
  function AcceptedOf(lines: seq<Entry>, good: set<nat>): seq<Entry> {
    if lines == [] then []
    else
      var n := |lines| - 1;
      AcceptedOf(lines[..n], good) + if lines[n].serial in good then [lines[n]] else []
  }

  lemma AcceptedSnoc(lines: seq<Entry>, e: Entry, good: set<nat>)
    ensures AcceptedOf(lines + [e], good) == AcceptedOf(lines, good) + if e.serial in good then [e] else []
  {
    assert (lines + [e])[..|lines|] == lines;
  }

  /** Line `n` finds the batch full: 200 events, or no room for it in 64 KiB. */
  predicate FullAt(lines: seq<Entry>, good: set<nat>, n: nat)
    requires n < |lines|
  {
    var batch := AcceptedOf(lines[..n], good);
    |batch| >= 200 || Sizes(batch) + lines[n].size > 65536
  }

  /** `n` is the first line that finds the batch full, or the end. */
  predicate FirstFull(lines: seq<Entry>, good: set<nat>, n: nat) {
    && n <= |lines|
    && (n < |lines| ==> FullAt(lines, good, n))
    && forall m :: 0 <= m < n ==> !FullAt(lines, good, m)
  }

  lemma {:induction false} ParsedWalks(lines: seq<Entry>, good: set<nat>, k: nat) returns (n: nat)
    requires k <= |lines| && forall m :: 0 <= m < k ==> !FullAt(lines, good, m)
    ensures FirstFull(lines, good, n)
    ensures Parsed(lines[k..], good, AcceptedOf(lines[..k], good)) == AcceptedOf(lines[..n], good)
    decreases |lines| - k
  {
    if k == |lines| || FullAt(lines, good, k) {
      n := k;
    } else {
      assert lines[..k + 1] == lines[..k] + [lines[k]] && lines[k..][1..] == lines[k + 1..];
      AcceptedSnoc(lines[..k], lines[k], good);
      n := ParsedWalks(lines, good, k + 1);
      var taken := AcceptedOf(lines[..k], good);
      assert taken + [] == taken;
    }
  }

  /** A batch is every accepted line up to the first that finds it full: a line
      that does not parse is skipped and costs nothing, no accepted line before
      that point is left out, and none after it is taken. */
  lemma ParsedExact(lines: seq<Entry>, good: set<nat>) returns (n: nat)
    ensures FirstFull(lines, good, n)
    ensures Parsed(lines, good, []) == AcceptedOf(lines[..n], good)
  {
    n := ParsedWalks(lines, good, 0);
    assert lines[0..] == lines && lines[..0] == [];
    assert AcceptedOf([], good) == [];
  }

  lemma NothingTaken()
    ensures Sizes([]) == 0
  {}

  lemma ParsedStep(lines: seq<Entry>, good: set<nat>, i: nat, taken: seq<Entry>)
    requires i < |lines|
    ensures Parsed(lines[i..], good, taken) ==
            if |taken| >= BATCH_MAX_EVENTS || Sizes(taken) + lines[i].size > BATCH_MAX_BYTES then taken
            else Parsed(lines[i + 1..], good, if lines[i].serial in good then taken + [lines[i]] else taken)
  {
    hide Sizes;
    assert lines[i..][1..] == lines[i + 1..];
  }

  lemma ParsedEnds(lines: seq<Entry>, good: set<nat>, i: nat, taken: seq<Entry>)
    requires i <= |lines|
    ensures i == |lines| ==> Parsed(lines[i..], good, taken) == taken
  {}

  /** `parse_events`. */
  method ParseEvents(lines: seq<Entry>, good: set<nat>) returns (events: seq<Entry>)
    ensures events == Parsed(lines, good, [])
    ensures |events| <= BATCH_MAX_EVENTS && Sizes(events) <= BATCH_MAX_BYTES
    ensures exists n: nat :: FirstFull(lines, good, n) && events == AcceptedOf(lines[..n], good)
  {
    events := [];
    var bytes := 0;
    var i := 0;
    hide FirstFull, AcceptedOf, Sizes, Increasing, Parsed;
    NothingTaken();
    ParsedIsBounded(lines, good, []);
    ghost var n := ParsedExact(lines, good);
    assert lines[0..] == lines;
    while i < |lines|
      invariant 0 <= i <= |lines|
      invariant bytes == Sizes(events)
      invariant Parsed(lines, good, []) == Parsed(lines[i..], good, events)
    {
      var line := lines[i];
      ParsedStep(lines, good, i, events);
      if |events| >= BATCH_MAX_EVENTS || bytes + line.size > BATCH_MAX_BYTES {
        break;
      }
      if line.serial in good {
        SizesSnoc(events, line);
        bytes := bytes + line.size;
        events := events + [line];
      }
      i := i + 1;
    }
    ParsedEnds(lines, good, i, events);
  }

  /** A telemetry home as an object whose files change in place, one locked
      body per method. `Files()` is the abstract value the steps speak about. */
  class TelemetryHome {
    var tombstone: Tombstone
    var buffer: seq<Entry>
    var dryrun: seq<Batch>
    var installId: Option<nat>
    var state: Option<nat>

    ghost function Files(): Home
      reads this
    {
      Home(tombstone, buffer, dryrun, installId, state)
    }

    constructor (h: Home)
      ensures Files() == h
    {
      tombstone, buffer, dryrun := h.tombstone, h.buffer, h.dryrun;
      installId, state := h.installId, h.state;
    }

    /** The write and the synchronisation after it may each fail. */
    method AppendUnderLock(e: Entry, lands: bool, synced: bool) returns (wrote: bool)
      modifies this`buffer
      ensures Files() == Append(old(Files()), e, lands)
      ensures wrote <==> old(tombstone) == Absent && lands && synced
      ensures buffer == if old(tombstone) == Absent && lands then old(buffer) + [e] else old(buffer)
    {
      if tombstone != Absent { return false; }
      if !lands { return false; }
      buffer := buffer + [e];
      return synced;
    }

    method DrainUnderLock(o: DrainOutcome) returns (lines: seq<Entry>)
      modifies this`buffer
      ensures Files() == Drain(old(Files()), o)
      ensures lines == DrainLines(old(Files()), o)
      ensures lines == if old(tombstone) == Absent && o == Took then old(buffer) else []
      ensures buffer == if old(tombstone) == Absent && o != Untouched then [] else old(buffer)
    {
      if tombstone != Absent { return []; }
      lines := buffer;
      if lines != [] {
        if o != Untouched { buffer := []; }
        if o != Took { return []; }
      }
    }

    method WipeUnderLock(nonce: nat, written: bool, done: Cleared) returns (ok: bool)
      modifies this
      ensures Files() == Wipe(old(Files()), nonce, written, done)
      ensures ok <==> (old(tombstone).Generation? || written) && done == Cleared(true, true, true, true)
      ensures ok ==> Files() == Home(tombstone, [], [], None, None)
      ensures old(tombstone).Generation? ==> tombstone == old(tombstone)
      ensures !old(tombstone).Generation? ==> tombstone == if written then Generation(nonce) else old(tombstone)
      ensures tombstone.Generation? ==>
                && buffer == (if done.buffer then [] else old(buffer))
                && dryrun == (if done.dryrun then [] else old(dryrun))
                && installId == (if done.installId then None else old(installId))
                && state == (if done.state then None else old(state))
      ensures !tombstone.Generation? ==> Files() == old(Files())
    {
      if !tombstone.Generation? {
        if !written { return false; }
        tombstone := Generation(nonce);
      }
      ok := true;
      if done.buffer { buffer := []; } else { ok := false; }
      if done.dryrun { dryrun := []; } else { ok := false; }
      if done.installId { installId := None; } else { ok := false; }
      if done.state { state := None; } else { ok := false; }
    }

    method ArmUnderLock(observed: Option<nat>, permitted: bool, removes: bool, truncates: bool) returns (ok: bool)
      modifies this`tombstone, this`buffer
      ensures Files() == Arm(old(Files()), observed, permitted, removes, truncates)
      ensures ok <==> ArmProceeds(old(Files()), observed, permitted, removes) && truncates
      ensures ok <==>
                && (old(tombstone) == Absent ==> observed == None)
                && (old(tombstone) != Absent ==>
                      observed.Some? && old(tombstone) == Generation(observed.value) && removes)
                && permitted && truncates
      ensures ok ==> tombstone == Absent && buffer == []
      ensures tombstone == old(tombstone) || (tombstone == Absent && permitted && removes)
      ensures buffer == old(buffer) || ok
    {
      var current: Option<nat> := None;
      match tombstone {
        case Absent =>
        case Generation(g) => current := Some(g);
        case Unreadable => return false;
      }
      if current != observed { return false; }
      if !permitted { return false; }
      if tombstone != Absent {
        if !removes { return false; }
        tombstone := Absent;
      }
      if truncates { buffer := []; }
      return truncates;
    }

    method ReadOrCreateInstallId(valid: bool, minted: nat, written: bool) returns (id: Option<nat>)
      modifies this`installId
      ensures Files() == Identify(old(Files()), valid, minted, written)
      ensures id == if old(tombstone) != Absent then None
                    else if valid && old(installId).Some? then old(installId)
                    else if written then Some(minted) else None
      ensures installId == if id.Some? then id else old(installId)
    {
      if tombstone != Absent { return None; }
      if valid && installId.Some? { return installId; }
      if !written { return None; }
      installId := Some(minted);
      return installId;
    }

    method WriteStateFile(s: nat, written: bool) returns (ok: bool)
      modifies this`state
      ensures Files() == WriteState(old(Files()), s, written)
      ensures ok <==> old(tombstone) == Absent && written
      ensures state == if ok then Some(s) else old(state)
    {
      if tombstone != Absent || !written { return false; }
      state := Some(s);
      return true;
    }
  }
}
