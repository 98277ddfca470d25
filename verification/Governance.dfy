/** Account lifecycle, coarsened from the raw account columns, and the pure WebSocket decisions on it. */
module Governance {
  import opened Common

  datatype Lifecycle = Active | Unavailable | Removed

  /** CoarsenLifecycle: everything that is not a known bad status counts as active. */
  function CoarsenLifecycle(accountStatus: string, deleted: bool): Lifecycle {
    if deleted || accountStatus == "deleted" || accountStatus == "removed" then Removed
    else if accountStatus == "suspended" || accountStatus == "banned" then Unavailable
    else Active
  }

  datatype DenyReason = DeniedSuspended | DeniedRemoved | DeniedUnauthorized | DeniedUnknown

  datatype SubscribeResult = Allowed | Denied(reason: DenyReason)

  /** EvaluateWSSubscribe */
  function EvaluateSubscribe(lifecycle: Lifecycle, member: bool): SubscribeResult {
    match lifecycle
    case Unavailable => Denied(DeniedSuspended)
    case Removed => Denied(DeniedRemoved)
    case Active => if member then Allowed else Denied(DeniedUnauthorized)
  }

  /** SubscribeGate.Evaluate; the status is None when it cannot be read. */
  function Evaluate(member: bool, status: Option<string>): SubscribeResult {
    match status
    case None => Denied(DeniedUnknown)
    case Some(s) => EvaluateSubscribe(CoarsenLifecycle(s, false), member)
  }

  /** IsAlive, and equally the per-subscriber filter of the dispatcher. */
  predicate IsAlive(status: Option<string>) {
    status.Some? && CoarsenLifecycle(status.value, false).Active?
  }

  /** The gate opens exactly for members whose status is readable and not a barred one, and says why it does not:
      the account before the membership. */
  lemma GateDecides(member: bool, status: Option<string>)
    ensures Evaluate(member, status) ==
      if status.None? then Denied(DeniedUnknown)
      else if status.value in {"deleted", "removed"} then Denied(DeniedRemoved)
      else if status.value in {"suspended", "banned"} then Denied(DeniedSuspended)
      else if !member then Denied(DeniedUnauthorized)
      else Allowed
    ensures IsAlive(status) <==>
      status.Some? && status.value !in {"deleted", "removed", "suspended", "banned"}
    ensures Evaluate(member, status) == Allowed <==> member && IsAlive(status)
  {
  }

  lemma LifecycleOf(accountStatus: string, deleted: bool)
    ensures CoarsenLifecycle(accountStatus, deleted) == Active <==>
      !deleted && accountStatus !in {"deleted", "removed", "suspended", "banned"}
  {
  }
}
