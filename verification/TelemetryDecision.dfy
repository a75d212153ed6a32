/** The emit predicate: what the resolved configuration permits (decision.rs). */
module TelemetryDecision {
  import opened Common
  import opened TelemetryFiles

  /** The configured endpoint: none, blank (the dry-run sink), accepted or refused
      by the endpoint check. */
  datatype Endpoint = Unset | Blank | Valid | Refused

  datatype Inputs = Inputs(
    home: Option<nat>,
    enabled: bool,
    explicitOff: bool,
    noticeDeclined: bool,
    endpoint: Endpoint)

  datatype Evaluation =
    | Permitted(root: nat, dryRun: bool, observed: Option<nat>)
    | OptedOut(at: Option<nat>)
    | ForcedOff

  /** `evaluate`: `read` is what reading the tombstone generation would give. */
  function Evaluate(i: Inputs, read: Option<Option<nat>>): Evaluation {
    if !i.enabled then
      if i.explicitOff then OptedOut(i.home) else ForcedOff
    else if i.noticeDeclined then OptedOut(i.home)
    else if i.home.None? then ForcedOff
    else if i.endpoint == Unset || i.endpoint == Refused then ForcedOff
    else if read.None? then ForcedOff
    else Permitted(i.home.value, i.endpoint == Blank, read.value)
  }

  /** A person persistently said no: in the configuration, or to the notice. */
  predicate Refuses(i: Inputs) { (!i.enabled && i.explicitOff) || (i.enabled && i.noticeDeclined) }

  /** The three verdicts, each exactly when: only a durable refusal opts out, and
      only a switch that is on, not declined, with a home, a usable endpoint and a
      readable tombstone permits. Nothing run-scoped ever becomes an opt-out. */
  lemma EvaluateExact(i: Inputs, read: Option<Option<nat>>)
    ensures Evaluate(i, read).OptedOut? <==> Refuses(i)
    ensures Evaluate(i, read).OptedOut? ==> Evaluate(i, read).at == i.home
    ensures Evaluate(i, read).Permitted? <==>
            i.enabled && !i.noticeDeclined && i.home.Some? && (i.endpoint == Blank || i.endpoint == Valid) && read.Some?
    ensures Evaluate(i, read).Permitted? ==>
            Evaluate(i, read) == Permitted(i.home.value, i.endpoint == Blank, read.value)
  {}

  /** The home this model is about. */
  const ROOT: nat := 0

  /** `permission_still_enabled` for that home. */
  predicate Permits(i: Inputs, h: Home) {
    var e := Evaluate(i, Observe(h));
    e.Permitted? && e.root == ROOT
  }

  /** `decide` would wipe that home. */
  predicate Wipes(i: Inputs) { Evaluate(i, None) == OptedOut(Some(ROOT)) }

  /** No answer both permits and wipes, whatever the files say; this home is permitted
      only by an answer for this home. */
  lemma PermittingIsNotWiping(i: Inputs, h: Home)
    ensures Permits(i, h) <==>
            i.enabled && !i.noticeDeclined && i.home == Some(ROOT) && (i.endpoint == Blank || i.endpoint == Valid)
            && Observe(h).Some?
    ensures !(Permits(i, h) && Wipes(i))
    ensures Wipes(i) <==> Refuses(i) && i.home == Some(ROOT)
  {}
}
