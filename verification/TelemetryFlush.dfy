/** What one process achieves when nothing fails: deciding, arming, recording
    and flushing from end to end (actor.rs, lib.rs). */
module TelemetryFlush {
  import opened Common
  import opened TelemetryFiles
  import opened TelemetryDecision
  import opened TelemetryProtocol

  /** A process that can record and flush: armed, nothing under way, no tombstone. */
  predicate Ready(w: World, p: Pid) {
    p in w.procs && w.procs[p].armed && w.procs[p].flight == Idle && w.home.tombstone == Absent
  }

  // ---- Deciding and arming ----

  /** A permitting decision leaves a consent that carries the generation read;
      any other answer changes nothing. */
  lemma DecideExact(w: World, p: Pid, inputs: Inputs)
    ensures var v := Apply(w, Decide(p, inputs));
            && v.home == w.home && v.sent == w.sent && v.history == w.history
            && (!Permits(inputs, w.home) ==> v == w)
            && (Permits(inputs, w.home) ==>
                  && ProcOf(v, p).consent.Some?
                  && (w.home.tombstone == Absent ==> ProcOf(v, p).consent == Some(None))
                  && (w.home.tombstone != Absent ==>
                        ProcOf(v, p).consent.value.Some?
                        && w.home.tombstone == Generation(ProcOf(v, p).consent.value.value)))
  {}

  /** `init` uses the consent up, and arms the process if and only if the consent
      carries what the home shows, the configuration still permits, and both
      file operations succeed; then the home is free and its buffer empty. */
  lemma InitExact(w: World, p: Pid, inputs: Inputs, removes: bool, truncates: bool)
    requires Enabled(w, Init(p, inputs, removes, truncates))
    ensures var v := Apply(w, Init(p, inputs, removes, truncates));
            var observed := ProcOf(w, p).consent.value;
            && ProcOf(v, p).consent == None
            && (ProcOf(v, p).armed <==>
                  && Permits(inputs, w.home) && truncates
                  && (w.home.tombstone == Absent ==> observed == None)
                  && (w.home.tombstone != Absent ==>
                        removes && observed.Some? && w.home.tombstone == Generation(observed.value)))
            && (ProcOf(v, p).armed ==> v.home.tombstone == Absent && v.home.buffer == [])
  {}

  // ---- Recording ----

  /** The process records events of these sizes, one after the other. */
  function RecordAll(w: World, p: Pid, sizes: seq<nat>): (r: World)
    requires ProcOf(w, p).armed
    ensures ProcOf(r, p).armed
  {
    if sizes == [] then w
    else Apply(RecordAll(w, p, sizes[..|sizes| - 1]), Record(p, sizes[|sizes| - 1], true))
  }

  /** The lines these events become, numbered from `first`. */
  function Recorded(first: nat, sizes: seq<nat>): (r: seq<Entry>)
    ensures |r| == |sizes| && forall i :: 0 <= i < |r| ==> r[i] == Entry(first + i, sizes[i])
  {
    seq(|sizes|, i requires 0 <= i < |sizes| => Entry(first + i, sizes[i]))
  }

  /** Every recorded event stands in the buffer behind what was there, in order. */
  lemma {:induction false} RecordsAreBuffered(w: World, p: Pid, sizes: seq<nat>)
    requires Ready(w, p)
    ensures var lines := Recorded(|w.history|, sizes);
            RecordAll(w, p, sizes)
            == w.(home := w.home.(buffer := w.home.buffer + lines), history := w.history + lines)
  {
    var lines := Recorded(|w.history|, sizes);
    if sizes == [] {
      assert lines == [] && w.home.buffer + [] == w.home.buffer && w.history + [] == w.history;
    } else {
      var n := |sizes| - 1;
      RecordsAreBuffered(w, p, sizes[..n]);
      var before := Recorded(|w.history|, sizes[..n]);
      assert lines == before + [Entry(|w.history| + n, sizes[n])];
      assert (w.home.buffer + before) + [lines[n]] == w.home.buffer + lines;
      assert (w.history + before) + [lines[n]] == w.history + lines;
    }
  }

  // ---- Flushing ----

  /** An armed process can always take exactly one step of a flush: it collects only
      when no batch is under way, and a batch goes through the other three in order. */
  lemma OneFlushStep(w: World, p: Pid, o: DrainOutcome, good: set<nat>, valid: bool, n: nat, dry: bool, ok: bool)
    requires ProcOf(w, p).armed
    ensures var (a, b, c, d) :=
              (Enabled(w, Collect(p, o, good)), Enabled(w, TakeId(p, valid, n, ok)),
               Enabled(w, StampState(p, n, ok)), Enabled(w, Deliver(p, dry, ok)));
            (a || b || c || d) && !(a && (b || c || d)) && !(b && (c || d)) && !(c && d)
  {}

  /** The four locked steps of one flush, all of which succeed. */
  function Flushed(w: World, p: Pid, good: set<nat>, valid: bool, minted: nat, stamp: nat, dry: bool): World
    requires Ready(w, p)
  {
    var a := Apply(w, Collect(p, Took, good));
    if ProcOf(a, p).flight == Idle then a
    else
      var b := Apply(a, TakeId(p, valid, minted, true));
      var c := Apply(b, StampState(p, stamp, true));
      Apply(c, Deliver(p, dry, true))
  }

  /** A flush drains the whole buffer, sends one batch, and leaves nothing else
      behind: the batch holds every accepted line up to the first that finds it
      full; the id stays if it is valid and is minted otherwise; the state is
      stamped; a dry run adds the batch to its file. Without a batch nothing
      but the drain happens. */
  lemma FlushExact(w: World, p: Pid, good: set<nat>, valid: bool, minted: nat, stamp: nat, dry: bool) returns (n: nat)
    requires Ready(w, p)
    ensures FirstFull(w.home.buffer, good, n)
    ensures var batch := Batch(|w.drains|, AcceptedOf(w.home.buffer[..n], good));
            var drained := w.(
              home := w.home.(buffer := []),
              drains := if w.home.buffer == [] then w.drains else w.drains + [w.home.buffer]);
            Flushed(w, p, good, valid, minted, stamp, dry) ==
            if batch.events == [] then drained
            else drained.(
              home := Home(
                Absent, [],
                if dry then w.home.dryrun + [batch] else w.home.dryrun,
                if valid && w.home.installId.Some? then w.home.installId else Some(minted),
                Some(stamp)),
              sent := w.sent + [batch])
  {
    hide Parsed, AcceptedOf, FirstFull, Apply;
    n := ParsedExact(w.home.buffer, good);
    var batch := Batch(|w.drains|, AcceptedOf(w.home.buffer[..n], good));
    DrainExact(w, p, good, batch);
    if batch.events != [] {
      var a := Apply(w, Collect(p, Took, good));
      SendExact(a, p, batch, valid, minted, stamp, dry);
      assert a.procs[p := w.procs[p]] == w.procs;
    }
  }

  /** The drain empties the buffer into one batch. */
  lemma DrainExact(w: World, p: Pid, good: set<nat>, batch: Batch)
    requires Ready(w, p) && batch == Batch(|w.drains|, Parsed(w.home.buffer, good, []))
    ensures var q := w.procs[p].(flight := if batch.events == [] then Idle else Drained(batch));
            Apply(w, Collect(p, Took, good)) == w.(
              home := w.home.(buffer := []),
              drains := if w.home.buffer == [] then w.drains else w.drains + [w.home.buffer],
              procs := w.procs[p := q])
    ensures batch.events == [] ==> w.procs[p := w.procs[p].(flight := Idle)] == w.procs
  {
    hide Parsed;
    assert w.procs[p := w.procs[p].(flight := Idle)] == w.procs;
    NothingParsed(good);
  }

  lemma NothingParsed(good: set<nat>)
    ensures Parsed([], good, []) == []
  {}

  /** What is drained takes an id, stamps the state and goes out. */
  lemma SendExact(a: World, p: Pid, batch: Batch, valid: bool, minted: nat, stamp: nat, dry: bool)
    requires p in a.procs && a.procs[p].flight == Drained(batch) && a.home.tombstone == Absent
    ensures Enabled(a, TakeId(p, valid, minted, true))
    ensures var b := Apply(a, TakeId(p, valid, minted, true));
            && Enabled(b, StampState(p, stamp, true))
            && var c := Apply(b, StampState(p, stamp, true));
               && Enabled(c, Deliver(p, dry, true))
               && Apply(c, Deliver(p, dry, true)) == a.(
                    home := Home(
                      Absent, a.home.buffer,
                      if dry then a.home.dryrun + [batch] else a.home.dryrun,
                      if valid && a.home.installId.Some? then a.home.installId else Some(minted),
                      Some(stamp)),
                    sent := a.sent + [batch],
                    procs := a.procs[p := a.procs[p].(flight := Idle)])
  {
    var q := a.procs[p];
    var b := Apply(a, TakeId(p, valid, minted, true));
    assert b.procs == a.procs[p := q.(flight := Identified(batch))];
    var c := Apply(b, StampState(p, stamp, true));
    assert c.procs == a.procs[p := q.(flight := Stamped(batch))];
  }

  predicate AllGood(lines: seq<Entry>, good: set<nat>) { forall e :: e in lines ==> e.serial in good }

  /** Where a batch of nothing but accepted lines stops. */
  lemma FullOfGood(lines: seq<Entry>, good: set<nat>, n: nat)
    requires AllGood(lines, good) && FirstFull(lines, good, n)
    ensures n <= |lines| && AcceptedOf(lines[..n], good) == lines[..n]
    ensures n < |lines| ==> n >= 200 || Sizes(lines[..n]) + lines[n].size > 65536
    ensures n > 0 ==> n <= 200 && Sizes(lines[..n]) <= 65536
  {
    hide AcceptedOf, Sizes;
    AllAccepted(lines[..n], good);
    if n > 0 {
      assert !FullAt(lines, good, n - 1);
      AllAccepted(lines[..n - 1], good);
      assert lines[..n] == lines[..n - 1] + [lines[n - 1]];
      SizesSnoc(lines[..n - 1], lines[n - 1]);
    }
  }

  /** From recording to delivery: with an empty buffer, what the next flush sends
      is the recorded events themselves, in order, up to the first that finds the
      batch full. */
  lemma RecordedIsDelivered(
    w: World, p: Pid, sizes: seq<nat>, good: set<nat>, valid: bool, minted: nat, stamp: nat, dry: bool)
    returns (n: nat)
    requires Ready(w, p) && w.home.buffer == [] && AllGood(Recorded(|w.history|, sizes), good)
    ensures n <= |sizes|
    ensures var lines := Recorded(|w.history|, sizes);
            && (n < |sizes| ==> n >= 200 || Sizes(lines[..n]) + sizes[n] > 65536)
            && (n > 0 ==> n <= 200 && Sizes(lines[..n]) <= 65536)
            && Ready(RecordAll(w, p, sizes), p)
            && Flushed(RecordAll(w, p, sizes), p, good, valid, minted, stamp, dry).sent
               == if n == 0 then w.sent else w.sent + [Batch(|w.drains|, lines[..n])]
  {
    hide Flushed, RecordAll, Apply, Sizes, FirstFull, AcceptedOf, AllGood;
    RecordsAreBuffered(w, p, sizes);
    var v := RecordAll(w, p, sizes);
    var lines := Recorded(|w.history|, sizes);
    assert v.home.buffer == lines;
    n := FlushExact(v, p, good, valid, minted, stamp, dry);
    FullOfGood(lines, good, n);
  }

  lemma {:induction false} AllAccepted(lines: seq<Entry>, good: set<nat>)
    requires AllGood(lines, good)
    ensures AcceptedOf(lines, good) == lines
  {
    if lines != [] {
      AllAccepted(lines[..|lines| - 1], good);
      assert lines == lines[..|lines| - 1] + [lines[|lines| - 1]];
    }
  }

  /** A flush step that fails drops the batch: nothing is sent, and no process
      holds it any more. */
  lemma FailedStepDrops(w: World, p: Pid, a: Action)
    requires Enabled(w, a) && (a.TakeId? || a.Deliver?) && a.p == p && (Stands(w.home) || !a.ok)
    ensures var v := Apply(w, a);
            v.home == w.home && v.sent == w.sent && v.drains == w.drains && ProcOf(v, p).flight == Idle
  {}
}
