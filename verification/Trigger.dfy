/** The relay's hand-off of a peer's kill to the local daemon
    (crates/plugkill-relay/src/trigger.rs:20-66). */
module Trigger {
  import opened Wrappers
  import opened Daemon
  import opened Socket

  /** What came back over the control socket: nothing, or an envelope whose
      `ok` field may be missing or of another type. */
  datatype Answer = NoAnswer | Envelope(ok: Option<bool>)

  datatype Outcome = Accepted | Poweroff

  /** Anything but an explicit yes is a poweroff. */
  function Classify(answer: Answer): Outcome {
    if answer.Envelope? && answer.ok == Some(true) then Accepted else Poweroff
  }

  /** How far the exchange gets: the daemon may not be reached, and its answer
      may not come back. */
  datatype Exchange = Unreachable | AnswerLost | Answered

  function EnvelopeOf(r: Response): Answer {
    Envelope(Some(r.Done?))
  }

  /** Every trigger ends in a poweroff or in a queued reason. */
  method TriggerLocalKill(st: DaemonState, reason: string, exchange: Exchange, call: Call, requireAuth: bool,
                          hasIdentity: bool)
    returns (outcome: Outcome)
    requires st.Valid() && call.req == Request.Kill(reason)
    modifies st, st.allowances
    ensures st.Valid()
    ensures outcome.Poweroff? || st.View() == old(st.View()).(killPending := Some(reason))
    ensures outcome.Accepted? <==> exchange.Answered? && old(st.View()).mode.Enforce? && Uid(call.creds) == Some(ROOT)
  {
    var answer := NoAnswer;
    if !exchange.Unreachable? {
      var r := HandleRequest(st, call, requireAuth, hasIdentity);
      if exchange.Answered? {
        answer := EnvelopeOf(r);
      }
    }
    outcome := Classify(answer);
  }
}
