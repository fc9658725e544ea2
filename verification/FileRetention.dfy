/**
 The retention rule for attached files: how long a file is kept, given what the order says about
 itself, and when the maintenance run may delete it.
 */
module FileRetention {
  import opened Common
  import opened FileSignature

  const CLOSED_UNPAID_RETENTION_MS: int := 30 * 24 * 3_600_000
  const COMPLETED_RETENTION_MS: int := 180 * 24 * 3_600_000

  datatype OrderState = Closed | Completed | Underway

  /** What the order reports; a null column is None. */
  datatype OrderFacts = OrderFacts(
    state: OrderState, confirmedAt: Option<Instant>, closedAt: Option<Instant>, completedAt: Option<Instant>)

  /** What one maintenance run finds for a file: its order, an evidence hold, and the mode it runs in. */
  datatype Ruling = Ruling(order: Option<OrderFacts>, hold: bool, enforce: bool)

  predicate Over(from: Option<Instant>, retention: int, at: Instant) {
    from.Some? && from.value + retention <= at
  }

  /** The three grounds on which retention is over. */
  predicate RetentionDue(context: Context, order: OrderFacts, at: Instant) {
    || (context.Brief? && order.state.Closed? && order.confirmedAt.None?
        && Over(order.closedAt, CLOSED_UNPAID_RETENTION_MS, at))
    || (order.state.Completed? && Over(order.completedAt, COMPLETED_RETENTION_MS, at))
    || (order.state.Closed? && (order.confirmedAt.Some? || context.ResolutionEvidence?)
        && Over(order.closedAt, COMPLETED_RETENTION_MS, at))
  }

  /** The run deletes the file: retention is over, nothing holds it, and the mode is to enforce. */
  predicate Retires(context: Context, ruling: Ruling, at: Instant) {
    ruling.order.Some? && RetentionDue(context, ruling.order.value, at) && !ruling.hold && ruling.enforce
  }

  /** Until when a file is kept; None while nothing about the order ends its retention. */
  function KeptUntil(context: Context, order: OrderFacts): Option<Instant> {
    match order.state
    case Underway => None
    case Completed =>
      if order.completedAt.Some? then Some(order.completedAt.value + COMPLETED_RETENTION_MS) else None
    case Closed =>
      if order.closedAt.None? then None
      else if order.confirmedAt.Some? || context.ResolutionEvidence?
      then Some(order.closedAt.value + COMPLETED_RETENTION_MS)
      else if context.Brief? then Some(order.closedAt.value + CLOSED_UNPAID_RETENTION_MS)
      else None
  }

  /**
   The three grounds amount to one date. A file is deletable exactly from then on, and never for an
   order underway or for a message or submission file of an order that closed unpaid.
   */
  lemma RetentionIsOneDate(context: Context, order: OrderFacts, at: Instant)
    ensures RetentionDue(context, order, at) <==>
            KeptUntil(context, order).Some? && at >= KeptUntil(context, order).value
  {
  }

  /** The order will release the file in time, nothing holds it, and the mode is to enforce. */
  predicate Releases(context: Context, ruling: Ruling) {
    ruling.order.Some? && KeptUntil(context, ruling.order.value).Some? && !ruling.hold && ruling.enforce
  }
}
