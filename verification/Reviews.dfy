/** Pre-scan review records (shared/constants.js), read by settlement and by reviewer selection. */
module Reviews {
  import opened Common

  datatype ReviewState =
    | Triggered | ClosedSelfCorrect | ClosedDismissed | Confirmed | ClosedAcceptedPrivate
    | EscalatedToDispute | Recused | ClaimedOver

  datatype Review = Review(id: string, ctid: string, state: ReviewState, reviewer: Option<string>, slaExpired: bool)

  /** The first record in a state. */
  function Find(reviews: seq<Review>, state: ReviewState): Option<Review> {
    if reviews == [] then None
    else if reviews[0].state == state then Some(reviews[0])
    else Find(reviews[1..], state)
  }

  function Assigned(r: Option<Review>): Option<string> {
    if r.Some? then r.value.reviewer else None
  }

  function ReviewId(r: Option<Review>): string {
    if r.Some? then r.value.id else ""
  }
}
