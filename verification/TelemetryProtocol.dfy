/** Many processes sharing one telemetry home: every run of every interleaving
    of their locked steps (buffer.rs, decision.rs, actor.rs, client.rs, lib.rs). */
module TelemetryProtocol {
  import opened Common
  import opened TelemetryFiles
  import opened TelemetryDecision

  type Pid = nat

  /** Where a process is in its flush: nothing drained, or a batch that has yet
      to pass the identity, state and delivery steps. */
  datatype Flight =
    | Idle
    | Drained(batch: Batch)
    | Identified(batch: Batch)
    | Stamped(batch: Batch)

  /** `consent` is the tombstone generation a decision observed (`Some(None)`:
      it observed no tombstone). */
  datatype Proc = Proc(armed: bool, consent: Option<Option<nat>>, flight: Flight)

  /** The shared files and the processes, with the history of the run: nonces
      ever written, deliveries made, and what became of every appended line. */
  datatype World = World(
    home: Home,
    procs: map<Pid, Proc>,
    nonces: set<nat>,
    sent: seq<Batch>,
    history: seq<Entry>,
    dropped: seq<Entry>,
    truncated: seq<Entry>,
    drains: seq<seq<Entry>>,
    boundary: nat)

  datatype Action =
    | Decide(p: Pid, inputs: Inputs)
    | OptOut(inputs: Inputs, nonce: nat, written: bool, done: Cleared)
    | Init(p: Pid, inputs: Inputs, removes: bool, truncates: bool)
    | NoteVersion(p: Pid, stamp: nat, ok: bool)
    | Record(p: Pid, size: nat, lands: bool)
    | EnforceRing(p: Pid, k: nat)
    | Collect(p: Pid, outcome: DrainOutcome, good: set<nat>)
    | TakeId(p: Pid, valid: bool, minted: nat, ok: bool)
    | StampState(p: Pid, stamp: nat, ok: bool)
    | Deliver(p: Pid, dry: bool, ok: bool)

  function ProcOf(w: World, p: Pid): Proc {
    if p in w.procs then w.procs[p] else Proc(false, None, Idle)
  }

  function SetProc(w: World, p: Pid, q: Proc): World { w.(procs := w.procs[p := q]) }

  predicate Enabled(w: World, a: Action) {
    match a
    case Decide(_, _) => true
    case OptOut(inputs, nonce, _, _) => Wipes(inputs) && nonce !in w.nonces
    case Init(p, _, _, _) => !ProcOf(w, p).armed && ProcOf(w, p).consent.Some?
    case NoteVersion(p, _, _) => ProcOf(w, p).armed
    case Record(p, _, _) => ProcOf(w, p).armed
    case EnforceRing(p, k) => ProcOf(w, p).armed && k <= |w.home.buffer|
    case Collect(p, _, _) => ProcOf(w, p).armed && ProcOf(w, p).flight == Idle
    case TakeId(p, _, _, _) => ProcOf(w, p).flight.Drained?
    case StampState(p, _, _) => ProcOf(w, p).flight.Identified?
    case Deliver(p, _, _) => ProcOf(w, p).flight.Stamped?
  }

  /** `decide`: a permitting answer becomes a consent that carries the generation
      read; an unreadable tombstone forces telemetry off. */
  function AfterDecide(w: World, p: Pid, inputs: Inputs): World {
    if !Permits(inputs, w.home) then w
    else SetProc(w, p, ProcOf(w, p).(consent := Observe(w.home)))
  }

  function AfterOptOut(w: World, nonce: nat, written: bool, done: Cleared): World {
    if !WipeProceeds(w.home, written) then w
    else w.(
      home := Wipe(w.home, nonce, written, done),
      nonces := w.nonces + {nonce},
      truncated := if done.buffer then w.truncated + w.home.buffer else w.truncated,
      boundary := |w.history|)
  }

  /** Step `Init` of process `p` gets past the checks of `arm` and the removal. */
  predicate Arms(w: World, p: Pid, inputs: Inputs, removes: bool) {
    && ProcOf(w, p).consent.Some?
    && ArmProceeds(w.home, ProcOf(w, p).consent.value, Permits(inputs, w.home), removes)
  }

  /** `init` consumes the consent and asks the configuration again under the lock;
      the process is armed only if all of `arm` succeeded. */
  function AfterInit(w: World, p: Pid, inputs: Inputs, removes: bool, truncates: bool): World
    requires ProcOf(w, p).consent.Some?
  {
    var permitted := Permits(inputs, w.home);
    var observed := ProcOf(w, p).consent.value;
    var arms := Arms(w, p, inputs, removes);
    var w' := w.(
      home := Arm(w.home, observed, permitted, removes, truncates),
      truncated := if arms && truncates then w.truncated + w.home.buffer else w.truncated,
      boundary := if arms then |w.history| else w.boundary);
    SetProc(w', p, ProcOf(w, p).(consent := None, armed := arms && truncates))
  }

  /** `record_install_or_upgrade` writes the state before it records its event. */
  function AfterNoteVersion(w: World, stamp: nat, ok: bool): World {
    w.(home := WriteState(w.home, stamp, ok))
  }

  function AfterRecord(w: World, size: nat, lands: bool): World {
    var e := Entry(|w.history|, size);
    if Stands(w.home) || !lands then w
    else w.(home := Append(w.home, e, lands), history := w.history + [e])
  }

  function AfterRing(w: World, k: nat): World
    requires k <= |w.home.buffer|
  {
    if Stands(w.home) then w
    else w.(home := Compact(w.home, k), dropped := w.dropped + w.home.buffer[..k])
  }

  function AfterCollect(w: World, p: Pid, o: DrainOutcome, good: set<nat>): World {
    var lines := DrainLines(w.home, o);
    var events := Parsed(lines, good, []);
    var w' := w.(
      home := Drain(w.home, o),
      truncated := if !Stands(w.home) && o == Lost then w.truncated + w.home.buffer else w.truncated,
      drains := if lines == [] then w.drains else w.drains + [lines]);
    if events == [] then w' else SetProc(w', p, ProcOf(w, p).(flight := Drained(Batch(|w.drains|, events))))
  }

  function AfterTakeId(w: World, p: Pid, valid: bool, minted: nat, ok: bool): World
    requires ProcOf(w, p).flight.Drained?
  {
    var q := ProcOf(w, p);
    if Stands(w.home) || !ok then SetProc(w, p, q.(flight := Idle))
    else SetProc(w.(home := Identify(w.home, valid, minted, ok)), p, q.(flight := Identified(q.flight.batch)))
  }

  /** The state write is attempted and its result ignored. */
  function AfterStamp(w: World, p: Pid, stamp: nat, ok: bool): World
    requires ProcOf(w, p).flight.Identified?
  {
    var q := ProcOf(w, p);
    SetProc(w.(home := WriteState(w.home, stamp, ok)), p, q.(flight := Stamped(q.flight.batch)))
  }

  function AfterDeliver(w: World, p: Pid, dry: bool, ok: bool): World
    requires ProcOf(w, p).flight.Stamped?
  {
    var q := ProcOf(w, p);
    var w' := SetProc(w, p, q.(flight := Idle));
    if Stands(w.home) || !ok then w'
    else w'.(
      home := if dry then SendDryRun(w.home, q.flight.batch) else w.home,
      sent := w.sent + [q.flight.batch])
  }

  function Apply(w: World, a: Action): World
    requires Enabled(w, a)
  {
    match a
    case Decide(p, inputs) => AfterDecide(w, p, inputs)
    case OptOut(_, nonce, written, done) => AfterOptOut(w, nonce, written, done)
    case Init(p, inputs, removes, truncates) => AfterInit(w, p, inputs, removes, truncates)
    case NoteVersion(_, stamp, ok) => AfterNoteVersion(w, stamp, ok)
    case Record(_, size, lands) => AfterRecord(w, size, lands)
    case EnforceRing(_, k) => AfterRing(w, k)
    case Collect(p, o, good) => AfterCollect(w, p, o, good)
    case TakeId(p, valid, minted, ok) => AfterTakeId(w, p, valid, minted, ok)
    case StampState(p, stamp, ok) => AfterStamp(w, p, stamp, ok)
    case Deliver(p, dry, ok) => AfterDeliver(w, p, dry, ok)
  }

  /** Any files may be there at the start; nobody has decided, drained or sent. */
  predicate Start(w: World) {
    && w.procs == map[] && w.sent == [] && w.dropped == [] && w.truncated == [] && w.drains == []
    && w.boundary == 0 && w.history == w.home.buffer
    && (forall i :: 0 <= i < |w.history| ==> w.history[i].serial == i)
    && (w.home.tombstone.Generation? ==> w.home.tombstone.nonce in w.nonces)
  }

  ghost predicate IsRun(ws: seq<World>, acts: seq<Action>) {
    && |ws| == |acts| + 1
    && Start(ws[0])
    && forall i :: 0 <= i < |acts| ==> Enabled(ws[i], acts[i]) && ws[i + 1] == Apply(ws[i], acts[i])
  }

  lemma IsStep(ws: seq<World>, acts: seq<Action>, i: nat)
    requires IsRun(ws, acts) && i < |acts|
    ensures |ws| == |acts| + 1 && Enabled(ws[i], acts[i]) && ws[i + 1] == Apply(ws[i], acts[i])
  {}

  lemma RunLength(ws: seq<World>, acts: seq<Action>)
    requires IsRun(ws, acts)
    ensures |ws| == |acts| + 1
  {}

  // ---- The tombstone as an epoch ----

  /** Step `a` arms a process past a standing tombstone. */
  predicate Clears(w: World, a: Action) {
    Enabled(w, a) && Stands(w.home) && !Stands(Apply(w, a).home)
  }

  /** What a standing tombstone freezes, from `w` to `v`. */
  predicate Frozen(w: World, v: World) {
    && Stands(v.home)
    && (w.home.tombstone.Generation? ==> v.home.tombstone == w.home.tombstone)
    && v.history == w.history && v.drains == w.drains && v.sent == w.sent
    && (v.home.buffer == w.home.buffer || v.home.buffer == [])
    && (v.home.dryrun == w.home.dryrun || v.home.dryrun == [])
    && (v.home.installId == w.home.installId || v.home.installId == None)
    && (v.home.state == w.home.state || v.home.state == None)
  }

  lemma StepFreezes(w: World, a: Action)
    requires Enabled(w, a) && Stands(w.home) && !Clears(w, a)
    ensures Frozen(w, Apply(w, a))
  {}

  /** While the tombstone stands, nothing is appended, drained, minted, written
      or sent, by any process: only an arming step can end that. */
  lemma {:induction false} TombstoneFreezes(ws: seq<World>, acts: seq<Action>, i: nat, j: nat)
    requires IsRun(ws, acts) && i <= j < |ws| && Stands(ws[i].home)
    requires forall k :: i <= k < j ==> !Clears(ws[k], acts[k])
    ensures Frozen(ws[i], ws[j])
    decreases j
  {
    if i < j {
      TombstoneFreezes(ws, acts, i, j - 1);
      StepFreezes(ws[j - 1], acts[j - 1]);
    }
  }

  predicate NonceKnown(w: World) { w.home.tombstone.Generation? ==> w.home.tombstone.nonce in w.nonces }

  /** A generation that was written once and does not stand any more. */
  predicate Retired(w: World, g: nat) { g in w.nonces && w.home.tombstone != Generation(g) }

  lemma StepKeepsNonces(w: World, a: Action, g: nat)
    requires Enabled(w, a) && NonceKnown(w)
    ensures NonceKnown(Apply(w, a)) && w.nonces <= Apply(w, a).nonces
    ensures Retired(w, g) ==> Retired(Apply(w, a), g)
  {}

  lemma {:induction false} NoncesKnown(ws: seq<World>, acts: seq<Action>, j: nat)
    requires IsRun(ws, acts) && j < |ws|
    ensures NonceKnown(ws[j])
    decreases j
  {
    if j > 0 {
      NoncesKnown(ws, acts, j - 1);
      StepKeepsNonces(ws[j - 1], acts[j - 1], 0);
    }
  }

  lemma {:induction false} RetiredStays(ws: seq<World>, acts: seq<Action>, i: nat, j: nat, g: nat)
    requires IsRun(ws, acts) && i <= j < |ws| && Retired(ws[i], g)
    ensures Retired(ws[j], g)
    decreases j
  {
    hide IsRun, Retired, NonceKnown;
    if i < j {
      RunLength(ws, acts);
      RetiredStays(ws, acts, i, j - 1, g);
      NoncesKnown(ws, acts, j - 1);
      IsStep(ws, acts, j - 1);
      StepKeepsNonces(ws[j - 1], acts[j - 1], g);
    }
  }

  lemma {:induction false} NoncesGrow(ws: seq<World>, acts: seq<Action>, i: nat, j: nat)
    requires IsRun(ws, acts) && i <= j < |ws|
    ensures ws[i].nonces <= ws[j].nonces
    decreases j
  {
    hide IsRun, Retired, NonceKnown;
    if i < j {
      RunLength(ws, acts);
      NoncesGrow(ws, acts, i, j - 1);
      NoncesKnown(ws, acts, j - 1);
      IsStep(ws, acts, j - 1);
      StepKeepsNonces(ws[j - 1], acts[j - 1], 0);
    }
  }

  /** One generation is one unbroken period: it never comes back. */
  lemma GenerationIsOnePeriod(ws: seq<World>, acts: seq<Action>, i: nat, k: nat, j: nat, g: nat)
    requires IsRun(ws, acts) && i <= k <= j < |ws|
    requires ws[i].home.tombstone == Generation(g) && ws[j].home.tombstone == Generation(g)
    ensures ws[k].home.tombstone == Generation(g)
  {
    NoncesKnown(ws, acts, i);
    NoncesGrow(ws, acts, i, k);
    if ws[k].home.tombstone != Generation(g) {
      RetiredStays(ws, acts, k, j, g);
    }
  }

  /** Process `p` decides, and the configuration permits. */
  predicate IsDecision(w: World, a: Action, p: Pid) {
    a.Decide? && a.p == p && Permits(a.inputs, w.home)
  }

  /** A consent held at `j` was made by a decision of the same process, which
      read the generation the consent carries. */
  lemma {:induction false} ConsentHasDecision(ws: seq<World>, acts: seq<Action>, p: Pid, j: nat) returns (k: nat)
    requires IsRun(ws, acts) && j < |ws| && ProcOf(ws[j], p).consent.Some?
    ensures k < j && IsDecision(ws[k], acts[k], p)
    ensures Observe(ws[k].home) == Some(ProcOf(ws[j], p).consent.value)
    decreases j
  {
    assert j > 0;
    var w, a := ws[j - 1], acts[j - 1];
    if IsDecision(w, a, p) {
      k := j - 1;
    } else {
      ConsentUnchanged(w, a, p);
      k := ConsentHasDecision(ws, acts, p, j - 1);
    }
  }

  lemma ConsentUnchanged(w: World, a: Action, p: Pid)
    requires Enabled(w, a) && !IsDecision(w, a, p)
    requires ProcOf(Apply(w, a), p).consent.Some?
    ensures ProcOf(Apply(w, a), p).consent == ProcOf(w, p).consent
  {}

  /** An opt-out ends only through an arming step whose fresh permission check
      said yes and whose consent came from a decision made during this very
      opt-out: from that decision to the arming, the same generation stood. */
  lemma OnlyThisPeriodsConsentClears(ws: seq<World>, acts: seq<Action>, j: nat) returns (k: nat)
    requires IsRun(ws, acts) && j < |acts| && Clears(ws[j], acts[j])
    ensures acts[j].Init? && Permits(acts[j].inputs, ws[j].home)
    ensures k < j && IsDecision(ws[k], acts[k], acts[j].p)
    ensures ws[j].home.tombstone.Generation?
    ensures forall m :: k <= m <= j ==> ws[m].home.tombstone == ws[j].home.tombstone
  {
    ClearingIsArming(ws[j], acts[j]);
    var p := acts[j].p;
    k := ConsentHasDecision(ws, acts, p, j);
    var g := ws[j].home.tombstone.nonce;
    forall m | k <= m <= j ensures ws[m].home.tombstone == ws[j].home.tombstone {
      GenerationIsOnePeriod(ws, acts, k, m, j, g);
    }
  }

  lemma ClearingIsArming(w: World, a: Action)
    requires Clears(w, a)
    ensures a.Init? && Permits(a.inputs, w.home) && ProcOf(w, a.p).consent.Some?
    ensures w.home.tombstone.Generation?
    ensures ProcOf(w, a.p).consent == Some(Some(w.home.tombstone.nonce))
  {}

  /** Consent resolved before an opt-out cannot clear that opt-out: a process
      that has not decided again since then never does. */
  lemma StaleConsentCannotClear(ws: seq<World>, acts: seq<Action>, i: nat, j: nat, p: Pid)
    requires IsRun(ws, acts) && i < j < |acts|
    requires acts[i].OptOut? && ws[i + 1].home.tombstone.Generation?
    requires ws[i].home.tombstone != ws[i + 1].home.tombstone
    requires ws[j].home.tombstone == ws[i + 1].home.tombstone
    requires forall m :: i < m < j ==> !(acts[m].Decide? && acts[m].p == p)
    requires acts[j].Init? && acts[j].p == p
    ensures !Clears(ws[j], acts[j])
  {
    if Clears(ws[j], acts[j]) {
      var k := OnlyThisPeriodsConsentClears(ws, acts, j);
      assert false;
    }
  }

  // ---- Where every appended line is ----

  predicate IsPartition(
    history: seq<Entry>, buffer: seq<Entry>, dropped: seq<Entry>, truncated: seq<Entry>, drained: seq<Entry>)
  {
    multiset(buffer) + multiset(dropped) + multiset(truncated) + multiset(drained) == multiset(history)
  }

  /** Every appended line is in the buffer, dropped by the ring, truncated away
      or drained: in exactly one of the four, exactly once. */
  predicate Accounted(w: World) {
    && (forall i :: 0 <= i < |w.history| ==> w.history[i].serial == i)
    && IsPartition(w.history, w.home.buffer, w.dropped, w.truncated, Flat(w.drains))
  }

  lemma LedgerMoves(
    history: seq<Entry>, buffer: seq<Entry>, dropped: seq<Entry>, truncated: seq<Entry>, drained: seq<Entry>,
    k: nat, e: Entry)
    requires IsPartition(history, buffer, dropped, truncated, drained) && k <= |buffer|
    ensures IsPartition(history + [e], buffer + [e], dropped, truncated, drained)
    ensures IsPartition(history, buffer[k..], dropped + buffer[..k], truncated, drained)
    ensures IsPartition(history, [], dropped, truncated + buffer, drained)
    ensures IsPartition(history, [], dropped, truncated, drained + buffer)
  {
    assert buffer == buffer[..k] + buffer[k..];
  }

  lemma StepAccounts(w: World, a: Action)
    requires Enabled(w, a) && Accounted(w)
    ensures Accounted(Apply(w, a))
  {
    hide IsPartition, Flat, Parsed;
    var k := if a.EnforceRing? then a.k else 0;
    var e := if a.Record? then Entry(|w.history|, a.size) else Entry(0, 0);
    LedgerMoves(w.history, w.home.buffer, w.dropped, w.truncated, Flat(w.drains), k, e);
    if a.Collect? {
      FlatSnoc(w.drains, DrainLines(w.home, a.outcome));
      assert Flat(w.drains) + [] == Flat(w.drains);
    }
  }

  /** Lines stand in append order, across all drains and then the buffer. */
  predicate OrderedLines(n: nat, drains: seq<seq<Entry>>, buffer: seq<Entry>) {
    && Increasing(buffer)
    && (forall d :: 0 <= d < |drains| ==> Increasing(drains[d]))
    && (forall c, d, e, f :: 0 <= c < d < |drains| && e in drains[c] && f in drains[d] ==> e.serial < f.serial)
    && (forall d, e, f :: 0 <= d < |drains| && e in drains[d] && f in buffer ==> e.serial < f.serial)
    && (forall e :: e in buffer ==> e.serial < n)
    && (forall d, e :: 0 <= d < |drains| && e in drains[d] ==> e.serial < n)
  }

  predicate Ordered(w: World) { OrderedLines(|w.history|, w.drains, w.home.buffer) }

  lemma OrderRecords(n: nat, drains: seq<seq<Entry>>, buffer: seq<Entry>, e: Entry)
    requires OrderedLines(n, drains, buffer) && e.serial == n
    ensures OrderedLines(n + 1, drains, buffer + [e])
  {
    var b := buffer + [e];
    assert Increasing(b) by {
      forall i, j | 0 <= i < j < |b| ensures b[i].serial < b[j].serial {
        assert b[i] == buffer[i] && buffer[i] in buffer;
        if j < |buffer| { assert b[j] == buffer[j]; }
      }
    }
    hide Increasing;
    forall f | f in b ensures f in buffer || f == e {}
  }

  lemma OrderDrops(n: nat, drains: seq<seq<Entry>>, buffer: seq<Entry>, k: nat)
    requires OrderedLines(n, drains, buffer) && k <= |buffer|
    ensures OrderedLines(n, drains, buffer[k..]) && OrderedLines(n, drains, [])
  {}

  lemma OrderDrains(n: nat, drains: seq<seq<Entry>>, buffer: seq<Entry>)
    requires OrderedLines(n, drains, buffer)
    ensures OrderedLines(n, drains + [buffer], [])
  {
    hide Increasing;
    var ds := drains + [buffer];
    assert forall d :: 0 <= d < |drains| ==> ds[d] == drains[d];
    assert ds[|drains|] == buffer;
    NothingIncreases();
    forall c, d, e: Entry, f: Entry | 0 <= c < d < |ds| && e in ds[c] && f in ds[d] ensures e.serial < f.serial {
      if d < |drains| { assert f in drains[d]; } else { assert f in buffer; }
    }
  }

  lemma NothingIncreases()
    ensures Increasing([])
  {}

  lemma StepKeepsOrder(w: World, a: Action)
    requires Enabled(w, a) && Ordered(w)
    ensures Ordered(Apply(w, a))
  {
    hide OrderedLines, Parsed;
    OrderRecords(|w.history|, w.drains, w.home.buffer, Entry(|w.history|, if a.Record? then a.size else 0));
    OrderDrops(|w.history|, w.drains, w.home.buffer, if a.EnforceRing? then a.k else 0);
    OrderDrains(|w.history|, w.drains, w.home.buffer);
  }

  predicate InFlight(q: Proc) { !q.flight.Idle? }

  predicate FromDrain(drains: seq<seq<Entry>>, b: Batch) {
    && b.drain < |drains| && Increasing(b.events)
    && forall e :: e in b.events ==> e in drains[b.drain]
  }

  predicate IsSent(sent: seq<Batch>, drain: nat) { exists a :: 0 <= a < |sent| && sent[a].drain == drain }

  /** No drain is behind two batches, sent or under way. */
  predicate UsedOnce(drains: seq<seq<Entry>>, sent: seq<Batch>, procs: map<Pid, Proc>) {
    && (forall a :: 0 <= a < |sent| ==> FromDrain(drains, sent[a]))
    && (forall a, b :: 0 <= a < b < |sent| ==> sent[a].drain != sent[b].drain)
    && (forall p :: p in procs && InFlight(procs[p]) ==>
          FromDrain(drains, procs[p].flight.batch) && !IsSent(sent, procs[p].flight.batch.drain))
    && (forall p, q :: p in procs && q in procs && p != q && InFlight(procs[p]) && InFlight(procs[q]) ==>
          procs[p].flight.batch.drain != procs[q].flight.batch.drain)
  }

  predicate SingleUse(w: World) { UsedOnce(w.drains, w.sent, w.procs) }

  /** A process may drop its batch, or carry it on. */
  lemma UseKept(drains: seq<seq<Entry>>, sent: seq<Batch>, procs: map<Pid, Proc>, p: Pid, q: Proc)
    requires UsedOnce(drains, sent, procs)
    requires InFlight(q) ==> p in procs && InFlight(procs[p]) && q.flight.batch == procs[p].flight.batch
    ensures UsedOnce(drains, sent, procs[p := q])
  {}

  lemma UseMoreDrains(drains: seq<seq<Entry>>, sent: seq<Batch>, procs: map<Pid, Proc>, lines: seq<Entry>)
    requires UsedOnce(drains, sent, procs)
    ensures UsedOnce(drains + [lines], sent, procs)
  {
    forall b: Batch | FromDrain(drains, b) ensures FromDrain(drains + [lines], b) {
      assert (drains + [lines])[b.drain] == drains[b.drain];
    }
  }

  lemma UseStarts(drains: seq<seq<Entry>>, sent: seq<Batch>, procs: map<Pid, Proc>, p: Pid, q: Proc, lines: seq<Entry>)
    requires UsedOnce(drains, sent, procs)
    requires InFlight(q) && FromDrain(drains + [lines], q.flight.batch) && q.flight.batch.drain == |drains|
    ensures UsedOnce(drains + [lines], sent, procs[p := q])
  {
    UseMoreDrains(drains, sent, procs, lines);
    forall a | 0 <= a < |sent| ensures sent[a].drain != |drains| {
      assert FromDrain(drains, sent[a]);
    }
    forall r | r in procs && InFlight(procs[r]) ensures procs[r].flight.batch.drain != |drains| {
      assert FromDrain(drains, procs[r].flight.batch);
    }
  }

  lemma UseEnds(drains: seq<seq<Entry>>, sent: seq<Batch>, procs: map<Pid, Proc>, p: Pid, q: Proc)
    requires UsedOnce(drains, sent, procs) && p in procs && InFlight(procs[p]) && !InFlight(q)
    ensures UsedOnce(drains, sent + [procs[p].flight.batch], procs[p := q])
  {
    var b := procs[p].flight.batch;
    var sent' := sent + [b];
    forall a | 0 <= a < |sent| ensures sent[a].drain != b.drain {
      assert !IsSent(sent, b.drain);
    }
    forall r | r in procs && r != p && InFlight(procs[r]) ensures !IsSent(sent', procs[r].flight.batch.drain) {
      assert !IsSent(sent, procs[r].flight.batch.drain);
    }
  }

  lemma StepKeepsSingleUse(w: World, a: Action)
    requires Enabled(w, a) && SingleUse(w) && Ordered(w)
    ensures SingleUse(Apply(w, a))
  {
    hide UsedOnce, Parsed;
    match a
    case Decide(p, _) =>
      UseKept(w.drains, w.sent, w.procs, p, ProcOf(w, p).(consent := Observe(w.home)));
    case Init(p, inputs, removes, truncates) =>
      var armed := Arms(w, p, inputs, removes) && truncates;
      UseKept(w.drains, w.sent, w.procs, p, ProcOf(w, p).(consent := None, armed := armed));
    case Collect(p, o, good) =>
      CollectKeepsSingleUse(w, p, o, good);
    case TakeId(p, _, _, _) =>
      var q := ProcOf(w, p);
      UseKept(w.drains, w.sent, w.procs, p, q.(flight := Idle));
      UseKept(w.drains, w.sent, w.procs, p, q.(flight := Identified(q.flight.batch)));
    case StampState(p, _, _) =>
      var q := ProcOf(w, p);
      UseKept(w.drains, w.sent, w.procs, p, q.(flight := Stamped(q.flight.batch)));
    case Deliver(p, _, _) =>
      var q := ProcOf(w, p);
      UseKept(w.drains, w.sent, w.procs, p, q.(flight := Idle));
      UseEnds(w.drains, w.sent, w.procs, p, q.(flight := Idle));
    case _ =>
  }

  lemma BatchComesFromDrain(drains: seq<seq<Entry>>, lines: seq<Entry>, good: set<nat>)
    requires Increasing(lines)
    ensures FromDrain(drains + [lines], Batch(|drains|, Parsed(lines, good, [])))
  {
    hide Parsed;
    ParsedIsBounded(lines, good, []);
    assert [] + lines == lines;
  }

  lemma CollectKeepsSingleUse(w: World, p: Pid, o: DrainOutcome, good: set<nat>)
    requires Enabled(w, Collect(p, o, good)) && SingleUse(w) && Ordered(w)
    ensures SingleUse(AfterCollect(w, p, o, good))
  {
    hide UsedOnce, Parsed, FromDrain, Increasing;
    var lines := DrainLines(w.home, o);
    var b := Batch(|w.drains|, Parsed(lines, good, []));
    if lines == [] {
      ParsedNothing(good);
    } else {
      BatchComesFromDrain(w.drains, lines, good);
      UseMoreDrains(w.drains, w.sent, w.procs, lines);
      UseStarts(w.drains, w.sent, w.procs, p, ProcOf(w, p).(flight := Drained(b)), lines);
    }
  }

  lemma ParsedNothing(good: set<nat>)
    ensures Parsed([], good, []) == []
  {}

  /** The invariants hold in every state of every run. */
  lemma {:induction false} RunInvariants(ws: seq<World>, acts: seq<Action>, j: nat)
    requires IsRun(ws, acts) && j < |ws|
    ensures Accounted(ws[j]) && Ordered(ws[j]) && SingleUse(ws[j])
    decreases j
  {
    hide Accounted, Ordered, SingleUse;
    if j == 0 {
      StartHasInvariants(ws[0]);
    } else {
      RunInvariants(ws, acts, j - 1);
      StepAccounts(ws[j - 1], acts[j - 1]);
      StepKeepsOrder(ws[j - 1], acts[j - 1]);
      StepKeepsSingleUse(ws[j - 1], acts[j - 1]);
    }
  }

  lemma StartHasInvariants(w: World)
    requires Start(w)
    ensures Accounted(w) && Ordered(w) && SingleUse(w)
  {
    assert Flat(w.drains) == [];
  }

  /** Every appended line is delivered at most once, in at most one batch. */
  lemma DeliveredAtMostOnce(ws: seq<World>, acts: seq<Action>, j: nat, a: nat, x: nat, b: nat, y: nat)
    requires IsRun(ws, acts) && j < |ws|
    requires a < |ws[j].sent| && x < |ws[j].sent[a].events|
    requires b < |ws[j].sent| && y < |ws[j].sent[b].events|
    requires ws[j].sent[a].events[x].serial == ws[j].sent[b].events[y].serial
    ensures a == b && x == y
  {
    RunInvariants(ws, acts, j);
    var w := ws[j];
    var p, q := w.sent[a], w.sent[b];
    assert FromDrain(w.drains, p) && FromDrain(w.drains, q);
    assert p.events[x] in w.drains[p.drain] && q.events[y] in w.drains[q.drain];
  }

  // ---- Nothing older than the last opt-out or arming is drained ----

  predicate NoStaleLines(w: World) {
    && w.boundary <= |w.history|
    && (!Stands(w.home) ==> forall e :: e in w.home.buffer ==> w.boundary <= e.serial)
  }

  /** The step that sets a boundary: a wipe that wrote or kept the tombstone, or
      an arming that got past its checks. */
  predicate SetsBoundary(w: World, a: Action) {
    match a
    case OptOut(_, _, written, _) => WipeProceeds(w.home, written)
    case Init(p, inputs, removes, _) => Arms(w, p, inputs, removes)
    case _ => false
  }

  /** An arming that leaves lines from before it in the buffer. */
  predicate LeavesLines(w: World, a: Action) {
    a.Init? && SetsBoundary(w, a) && !a.truncates && w.home.buffer != []
  }

  /** An arming leaves stale lines exactly if it does not truncate a buffer that
      has some. */
  lemma ArmingLeavesStaleLines(w: World, a: Action)
    requires Enabled(w, a) && Ordered(w) && a.Init? && SetsBoundary(w, a)
    ensures NoStaleLines(Apply(w, a)) <==> a.truncates || w.home.buffer == []
  {
    if !a.truncates && w.home.buffer != [] {
      assert w.home.buffer[0] in Apply(w, a).home.buffer;
    }
  }

  lemma StepKeepsFresh(w: World, a: Action)
    requires Enabled(w, a) && NoStaleLines(w) && !LeavesLines(w, a)
    ensures NoStaleLines(Apply(w, a))
  {
    hide Parsed, Permits;
  }

  lemma BoundaryGrows(w: World, a: Action)
    requires Enabled(w, a) && w.boundary <= |w.history|
    ensures w.boundary <= Apply(w, a).boundary <= |Apply(w, a).history|
    ensures SetsBoundary(w, a) ==> Apply(w, a).boundary == |w.history|
  {
    hide Parsed, Permits;
  }

  lemma {:induction false} BoundariesGrow(ws: seq<World>, acts: seq<Action>, i: nat, j: nat)
    requires IsRun(ws, acts) && i <= j < |ws|
    ensures ws[i].boundary <= ws[j].boundary <= |ws[j].history|
    decreases j
  {
    if j > 0 {
      BoundariesGrow(ws, acts, if i < j then i else j - 1, j - 1);
      BoundaryGrows(ws[j - 1], acts[j - 1]);
    }
  }

  /** A run is free of stale lines throughout if and only if none of its armings
      leaves lines behind. */
  lemma {:induction false} RunStaysFresh(ws: seq<World>, acts: seq<Action>, j: nat)
    requires IsRun(ws, acts) && j < |ws|
    ensures (forall i :: 0 <= i <= j ==> NoStaleLines(ws[i]))
       <==> (forall k :: 0 <= k < j ==> !LeavesLines(ws[k], acts[k]))
    decreases j
  {
    hide LeavesLines, NoStaleLines;
    if j == 0 {
      StartIsFresh(ws[0]);
    } else {
      RunStaysFresh(ws, acts, j - 1);
      var w, a := ws[j - 1], acts[j - 1];
      RunInvariants(ws, acts, j - 1);
      assert ws[j] == Apply(w, a);
      if LeavesLines(w, a) {
        LeavingIsStale(w, a);
        assert !NoStaleLines(ws[j]);
      } else if NoStaleLines(w) {
        StepKeepsFresh(w, a);
      }
    }
  }

  lemma StartIsFresh(w: World)
    requires Start(w)
    ensures NoStaleLines(w)
  {}

  lemma LeavingIsStale(w: World, a: Action)
    requires Enabled(w, a) && Ordered(w) && LeavesLines(w, a)
    ensures !NoStaleLines(Apply(w, a))
  {
    hide Enabled, Apply, Ordered, NoStaleLines;
    ArmingLeavesStaleLines(w, a);
  }

  /** If no arming left lines behind, whatever a drain returns was appended after
      every earlier wipe and arming, even a wipe whose truncation failed. */
  lemma DrainsOnlyFreshLines(ws: seq<World>, acts: seq<Action>, i: nat, j: nat)
    requires IsRun(ws, acts) && i < j < |acts|
    requires forall k :: 0 <= k < j ==> !LeavesLines(ws[k], acts[k])
    requires SetsBoundary(ws[i], acts[i]) && acts[j].Collect?
    ensures forall e :: e in DrainLines(ws[j].home, acts[j].outcome) ==> |ws[i].history| <= e.serial
  {
    hide SetsBoundary, LeavesLines, IsRun;
    IsStep(ws, acts, i);
    RunStaysFresh(ws, acts, j);
    BoundariesGrow(ws, acts, i, i);
    BoundaryGrows(ws[i], acts[i]);
    BoundariesGrow(ws, acts, i + 1, j);
    assert NoStaleLines(ws[j]);
  }

  // ---- Continuing a run ----

  const YES := Inputs(Some(ROOT), true, false, false, Valid)
  const NO := Inputs(Some(ROOT), false, true, false, Valid)

  lemma Extend(ws: seq<World>, acts: seq<Action>, a: Action) returns (ws': seq<World>, acts': seq<Action>)
    requires IsRun(ws, acts) && Enabled(ws[|acts|], a)
    ensures IsRun(ws', acts') && ws <= ws' && acts <= acts'
    ensures |acts'| == |acts| + 1 && |ws'| == |acts'| + 1
    ensures acts'[|acts|] == a && ws'[|acts'|] == Apply(ws[|acts|], a)
  {
    hide Start, Enabled, Apply;
    ws', acts' := ws + [Apply(ws[|acts|], a)], acts + [a];
  }

  /** From every state with a batch under way and no tombstone, the run can go on
      to deliver that batch. */
  lemma BatchCanBeDelivered(ws: seq<World>, acts: seq<Action>, p: Pid) returns (ws': seq<World>, acts': seq<Action>)
    requires IsRun(ws, acts) && InFlight(ProcOf(ws[|acts|], p)) && !Stands(ws[|acts|].home)
    ensures IsRun(ws', acts') && ws <= ws' && acts <= acts' && |ws'| == |acts'| + 1
    ensures ws'[|acts'|].sent == ws[|acts|].sent + [ProcOf(ws[|acts|], p).flight.batch]
  {
    hide IsRun;
    RunLength(ws, acts);
    ghost var b := ProcOf(ws[|acts|], p).flight.batch;
    ws', acts' := ws, acts;
    if ProcOf(ws'[|acts'|], p).flight.Drained? {
      ws', acts' := Identifies(ws', acts', p);
    }
    if ProcOf(ws'[|acts'|], p).flight.Identified? {
      ws', acts' := Stamps(ws', acts', p);
    }
    ws', acts' := Delivers(ws', acts', p);
  }

  lemma Identifies(ws: seq<World>, acts: seq<Action>, p: Pid) returns (ws': seq<World>, acts': seq<Action>)
    requires IsRun(ws, acts) && ProcOf(ws[|acts|], p).flight.Drained? && !Stands(ws[|acts|].home)
    ensures IsRun(ws', acts') && ws <= ws' && acts <= acts' && |ws'| == |acts'| + 1
    ensures ProcOf(ws'[|acts'|], p).flight == Identified(ProcOf(ws[|acts|], p).flight.batch)
    ensures !Stands(ws'[|acts'|].home) && ws'[|acts'|].sent == ws[|acts|].sent
  {
    hide IsRun;
    ws', acts' := Extend(ws, acts, TakeId(p, false, 0, true));
  }

  lemma Stamps(ws: seq<World>, acts: seq<Action>, p: Pid) returns (ws': seq<World>, acts': seq<Action>)
    requires IsRun(ws, acts) && ProcOf(ws[|acts|], p).flight.Identified? && !Stands(ws[|acts|].home)
    ensures IsRun(ws', acts') && ws <= ws' && acts <= acts' && |ws'| == |acts'| + 1
    ensures ProcOf(ws'[|acts'|], p).flight == Stamped(ProcOf(ws[|acts|], p).flight.batch)
    ensures !Stands(ws'[|acts'|].home) && ws'[|acts'|].sent == ws[|acts|].sent
  {
    hide IsRun;
    ws', acts' := Extend(ws, acts, StampState(p, 0, true));
  }

  lemma Delivers(ws: seq<World>, acts: seq<Action>, p: Pid) returns (ws': seq<World>, acts': seq<Action>)
    requires IsRun(ws, acts) && ProcOf(ws[|acts|], p).flight.Stamped? && !Stands(ws[|acts|].home)
    ensures IsRun(ws', acts') && ws <= ws' && acts <= acts' && |ws'| == |acts'| + 1
    ensures ws'[|acts'|].sent == ws[|acts|].sent + [ProcOf(ws[|acts|], p).flight.batch]
  {
    hide IsRun;
    ws', acts' := Extend(ws, acts, Deliver(p, false, true));
  }

  /** A batch that is under way when a tombstone stands is delivered only after
      some step cleared the tombstone. */
  lemma OldBatchNeedsClearing(ws: seq<World>, acts: seq<Action>, i: nat, j: nat, p: Pid) returns (k: nat)
    requires IsRun(ws, acts) && i <= j < |ws| && Stands(ws[i].home) && InFlight(ProcOf(ws[i], p))
    requires IsSent(ws[j].sent, ProcOf(ws[i], p).flight.batch.drain)
    ensures i <= k < j && Clears(ws[k], acts[k])
  {
    hide Clears, UsedOnce;
    RunInvariants(ws, acts, i);
    NotSentWhileInFlight(ws[i], p);
    if !exists k :: i <= k < j && Clears(ws[k], acts[k]) {
      TombstoneFreezes(ws, acts, i, j);
    }
    k :| i <= k < j && Clears(ws[k], acts[k]);
  }

  lemma {:induction false} UnusedPid(pids: set<Pid>) returns (q: Pid)
    ensures forall p :: p in pids ==> p < q
  {
    if pids == {} {
      q := 0;
    } else {
      var p :| p in pids;
      var r := UnusedPid(pids - {p});
      q := if r <= p then p + 1 else r;
      assert forall o :: o in pids ==> o == p || o in pids - {p};
    }
  }

  /** And whenever a generation stands while a batch is under way, a new process
      can decide, clear it, and the old batch is delivered. */
  lemma BatchOutlivesOptOut(ws: seq<World>, acts: seq<Action>, p: Pid) returns (ws': seq<World>, acts': seq<Action>)
    requires IsRun(ws, acts) && InFlight(ProcOf(ws[|acts|], p)) && ws[|acts|].home.tombstone.Generation?
    ensures IsRun(ws', acts') && ws <= ws' && acts <= acts' && |ws'| == |acts'| + 1
    ensures ws'[|acts'|].sent == ws[|acts|].sent + [ProcOf(ws[|acts|], p).flight.batch]
  {
    hide IsRun;
    RunLength(ws, acts);
    var w := ws[|acts|];
    var q := UnusedPid(w.procs.Keys);
    ws', acts' := Extend(ws, acts, Decide(q, YES));
    assert ProcOf(ws'[|acts'|], q) == Proc(false, Some(Some(w.home.tombstone.nonce)), Idle);
    ws', acts' := Extend(ws', acts', Init(q, YES, true, true));
    ws', acts' := BatchCanBeDelivered(ws', acts', p);
  }

  lemma NotSentWhileInFlight(w: World, p: Pid)
    requires SingleUse(w) && InFlight(ProcOf(w, p))
    ensures !IsSent(w.sent, ProcOf(w, p).flight.batch.drain)
  {}

  /** A stale line can be drained as soon as a process that was armed before is
      idle. */
  lemma StaleLineCanBeDrained(ws: seq<World>, acts: seq<Action>, p: Pid) returns (ws': seq<World>, acts': seq<Action>)
    requires IsRun(ws, acts) && !NoStaleLines(ws[|acts|])
    requires ProcOf(ws[|acts|], p).armed && ProcOf(ws[|acts|], p).flight.Idle?
    ensures IsRun(ws', acts') && ws <= ws' && acts <= acts' && |acts'| == |acts| + 1 && acts'[|acts|].Collect?
    ensures exists e :: e in DrainLines(ws[|acts|].home, acts'[|acts|].outcome) && e.serial < ws[|acts|].boundary
  {
    hide IsRun;
    RunLength(ws, acts);
    BoundariesGrow(ws, acts, |acts|, |acts|);
    ws', acts' := Extend(ws, acts, Collect(p, Took, {}));
  }

  // ---- Two concrete runs at the edge of the guarantees ----

  const ARMED: Proc := Proc(true, None, Idle)
  const LINE := Entry(0, 10)

  /** Process 0 decides, arms, and records one line. */
  lemma FirstLineRun() returns (ws: seq<World>, acts: seq<Action>)
    ensures IsRun(ws, acts) && |acts| == 3 && |ws| == 4
    ensures ws[3] == World(Home(Absent, [LINE], [], None, None), map[0 := ARMED], {}, [], [LINE], [], [], [], 0)
  {
    hide IsRun;
    var w0 := World(Home(Absent, [], [], None, None), map[], {}, [], [], [], [], [], 0);
    ws, acts := [w0], [];
    StartRuns(w0);
    ws, acts := Extend(ws, acts, Decide(0, YES));
    assert ws[1] == w0.(procs := map[0 := Proc(false, Some(None), Idle)]);
    ws, acts := Extend(ws, acts, Init(0, YES, true, true));
    assert ws[2] == w0.(procs := map[0 := ARMED]);
    ws, acts := Extend(ws, acts, Record(0, 10, true));
  }

  lemma StartRuns(w: World)
    requires Start(w)
    ensures IsRun([w], [])
  {}

  /** If an arming removes the tombstone and then fails to truncate, a process
      armed earlier can drain a line from before the opt-out. */
  lemma FailedTruncationLeaksStaleLine() returns (ws: seq<World>, acts: seq<Action>)
    ensures IsRun(ws, acts) && |acts| == 7
    ensures SetsBoundary(ws[3], acts[3]) && acts[6].Collect?
    ensures exists e :: e in DrainLines(ws[6].home, acts[6].outcome) && e.serial < |ws[3].history|
  {
    hide IsRun, Parsed;
    ws, acts := FirstLineRun();
    ws, acts := Extend(ws, acts, OptOut(NO, 7, true, Cleared(false, false, false, false)));
    assert ws[4].home == Home(Generation(7), [LINE], [], None, None) && ws[4].procs == map[0 := ARMED];
    ws, acts := Extend(ws, acts, Decide(1, YES));
    assert ws[5].home == ws[4].home && ws[5].procs == map[0 := ARMED, 1 := Proc(false, Some(Some(7)), Idle)];
    ws, acts := Extend(ws, acts, Init(1, YES, true, false));
    assert ws[6].home.buffer == [LINE] && LINE in ws[6].home.buffer && ws[6].boundary == 1;
    ws, acts := StaleLineCanBeDrained(ws, acts, 0);
  }

  lemma DrainedRun() returns (ws: seq<World>, acts: seq<Action>)
    ensures IsRun(ws, acts) && |acts| == 4 && |ws| == 5
    ensures ws[4].home == Home(Absent, [], [], None, None) && ws[4].history == [LINE]
    ensures ws[4].sent == [] && ws[4].nonces == {}
    ensures ws[4].procs == map[0 := Proc(true, None, Drained(Batch(0, [LINE])))]
  {
    hide IsRun, Parsed;
    ws, acts := FirstLineRun();
    ParsedOne(LINE, {0});
    ws, acts := Extend(ws, acts, Collect(0, Took, {0}));
  }

  /** The line is drained, the user opts out, and process 1 re-enables. */
  lemma ReenabledRun() returns (ws: seq<World>, acts: seq<Action>)
    ensures IsRun(ws, acts) && |acts| == 7 && |ws| == 8
    ensures SetsBoundary(ws[4], acts[4]) && Stands(ws[5].home) && ws[4].history == [LINE]
    ensures !Stands(ws[7].home) && ws[7].sent == []
    ensures ProcOf(ws[7], 0).flight == Drained(Batch(0, [LINE]))
  {
    hide IsRun, Parsed;
    ws, acts := DrainedRun();
    var p := Proc(true, None, Drained(Batch(0, [LINE])));
    ws, acts := Extend(ws, acts, OptOut(NO, 7, true, Cleared(true, true, true, true)));
    assert ws[5].home == Home(Generation(7), [], [], None, None) && ws[5].procs == map[0 := p] && ws[5].sent == [];
    ws, acts := Extend(ws, acts, Decide(1, YES));
    assert ws[6].home == ws[5].home && ws[6].sent == [];
    assert ws[6].procs == map[0 := p, 1 := Proc(false, Some(Some(7)), Idle)];
    ws, acts := Extend(ws, acts, Init(1, YES, true, true));
  }

  /** A batch drained before an opt-out can still be delivered after a later
      re-enablement: the boundary holds while the tombstone stands, no longer. */
  lemma OldBatchMayFollowReenablement() returns (ws: seq<World>, acts: seq<Action>)
    ensures IsRun(ws, acts) && |ws| == |acts| + 1 > 7
    ensures SetsBoundary(ws[4], acts[4]) && Stands(ws[5].home)
    ensures ws[|acts|].sent == [Batch(0, [LINE])] && LINE.serial < |ws[4].history|
  {
    hide IsRun, SetsBoundary;
    ws, acts := ReenabledRun();
    ws, acts := BatchCanBeDelivered(ws, acts, 0);
  }

  lemma ParsedOne(e: Entry, good: set<nat>)
    requires e.serial in good && e.size <= BATCH_MAX_BYTES
    ensures Parsed([e], good, []) == [e]
  {
    assert Sizes([]) == 0;
    assert [e][1..] == [] && [] + [e] == [e];
    assert Parsed([], good, [e]) == [e];
  }
}
