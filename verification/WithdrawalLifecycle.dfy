/** What the table of legal moves allows over whole lifecycles. */
module WithdrawalLifecycle {
  import opened WithdrawalStore

  predicate Legal(path: seq<WState>) {
    forall k :: 0 <= k < |path| - 1 ==> MayTransitionTo(path[k], path[k + 1])
  }

  /** A state has no legal move out exactly when it is completed or failed; a
      halted withdrawal leaves only through recovery, and everything that is
      not terminal may halt. */
  lemma TerminalStates(s: WState)
    ensures (forall t :: !MayTransitionTo(s, t)) <==> s == Completed || s == Failed
    ensures forall t :: MayTransitionTo(IntegrityHalted, t) <==> t == Validated || t == Failed
    ensures MayTransitionTo(s, IntegrityHalted) <==> !IsTerminal(s)
  {
    if s.Observed? { assert MayTransitionTo(s, Failed); }
    if s.Broadcast? || s.Confirming? || s.Orphaned? || s.Signing? { assert MayTransitionTo(s, Broadcast); }
    if s.Validated? || s.AwaitingFunds? || s.Building? || s.IntegrityHalted? { assert MayTransitionTo(s, Failed); }
  }

  /** From which states each state can be entered. */
  function Sources(to: WState): (from: set<WState>) {
    match to
    case Observed => {}
    case Validated => {Observed, AwaitingFunds, IntegrityHalted}
    case AwaitingFunds => {Validated, Building}
    case Building => {Validated}
    case Signing => {Building}
    case Broadcast => {Signing, Broadcast, Confirming, Orphaned}
    case Confirming => {Broadcast, Confirming}
    case Completed => {Confirming}
    case Orphaned => {Broadcast, Confirming}
    case Failed => {Observed, Validated, AwaitingFunds, Building, IntegrityHalted}
    case IntegrityHalted => {Observed, Validated, AwaitingFunds, Building, Signing, Broadcast, Confirming, Orphaned}
  }

  lemma MovesBeforeSigning(s: WState, to: WState)
    requires to in {Observed, Validated, AwaitingFunds, Building, Failed}
    ensures MayTransitionTo(s, to) <==> s in Sources(to)
  {
    match to
    case Observed =>
    case Validated =>
    case AwaitingFunds =>
    case Building =>
    case Failed =>
    case _ =>
  }

  lemma MovesFromSigning(s: WState, to: WState)
    requires to in {Signing, Broadcast, Confirming, Completed, Orphaned, IntegrityHalted}
    ensures MayTransitionTo(s, to) <==> s in Sources(to)
  {
    match to
    case Signing =>
    case Broadcast =>
    case Confirming =>
    case Completed =>
    case Orphaned =>
    case IntegrityHalted =>
    case _ =>
  }

  /** The table of moves read by where they lead. */
  lemma MovesInto(s: WState, to: WState)
    ensures MayTransitionTo(s, to) <==> s in Sources(to)
  {
    if to in {Observed, Validated, AwaitingFunds, Building, Failed} {
      MovesBeforeSigning(s, to);
    } else {
      MovesFromSigning(s, to);
    }
    hide MayTransitionTo, Sources;
  }

  /** The states from which a payment has not yet been claimed. */
  predicate BeforeSigning(s: WState) { s in {Observed, Validated, AwaitingFunds, Building, Failed, IntegrityHalted} }

  predicate Visits(path: seq<WState>, s: WState) { exists k :: 0 <= k < |path| && path[k] == s }

  lemma {:induction false} OnlySigningLeaves(path: seq<WState>)
    requires path != [] && Legal(path) && BeforeSigning(path[0])
    ensures Visits(path, Signing) || BeforeSigning(path[|path| - 1])
  {
    if |path| > 1 {
      var rest := path[1..];
      if path[1] == Signing {
        assert Visits(path, Signing);
      } else {
        assert MayTransitionTo(path[0], path[1]);
        assert forall k :: 0 <= k < |rest| ==> rest[k] == path[k + 1];
        OnlySigningLeaves(rest);
        if Visits(rest, Signing) {
          var k :| 0 <= k < |rest| && rest[k] == Signing;
          assert path[k + 1] == Signing;
        }
      }
    }
  }

  /** Every legal lifecycle that ends completed was signed on the way and ends
      by confirming: no legal sequence of moves skips either. */
  lemma CompletedWasSignedAndConfirmed(path: seq<WState>)
    requires path != [] && Legal(path) && path[0] == Observed && path[|path| - 1] == Completed
    ensures Visits(path, Signing) && |path| >= 2 && path[|path| - 2] == Confirming
  {
    OnlySigningLeaves(path);
    assert MayTransitionTo(path[|path| - 2], path[|path| - 2 + 1]);
  }
}
