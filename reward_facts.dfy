/** What `register` does to the reward table: totals, the row it reports, and
    the cases where nothing happens. */
module RewardFacts {
  import opened Wrappers
  import opened Collections
  import opened ActivityModel

  /** The participants recorded over all rows (NULL read as 0). */
  function Participants(rows: seq<RewardRow>): int
  {
    if rows == [] then 0 else OrZero(rows[0].participantCount) + Participants(rows[1..])
  }

  /** The money collected over all rows (NULL read as 0). */
  function Collected(rows: seq<RewardRow>): int
  {
    if rows == [] then 0 else OrZero(rows[0].havemoney) + Collected(rows[1..])
  }

  /** The number of rows of an activity. */
  function RowsOf(rows: seq<RewardRow>, activityId: int): nat
  {
    if rows == [] then 0 else (if rows[0].activityId == activityId then 1 else 0) + RowsOf(rows[1..], activityId)
  }

  /** The registration fees of an activity's rows (NULL read as 0). */
  function FeesOf(rows: seq<RewardRow>, activityId: int): int
  {
    if rows == [] then 0
    else (if rows[0].activityId == activityId then OrZero(rows[0].registrationFee) else 0) + FeesOf(rows[1..], activityId)
  }

  lemma RegisteredTail(rows: seq<RewardRow>, activityId: int)
    requires rows != []
    ensures Registered(rows, activityId)[1..] == Registered(rows[1..], activityId)
  {
  }

  /** One registration adds one participant per row of the activity and that
      row's fee to the money collected; no other row changes its totals. */
  lemma {:induction false} RegisterTotals(rows: seq<RewardRow>, activityId: int)
    ensures Participants(Registered(rows, activityId)) == Participants(rows) + RowsOf(rows, activityId)
    ensures Collected(Registered(rows, activityId)) == Collected(rows) + FeesOf(rows, activityId)
    decreases |rows|
  {
    if rows != [] {
      RegisteredTail(rows, activityId);
      RegisterTotals(rows[1..], activityId);
    }
  }

  /** Every row keeps its identity, activity, fee and status; only the rows of
      the activity change, each gaining one participant and its fee. */
  lemma RegisterRow(rows: seq<RewardRow>, activityId: int, i: int)
    requires 0 <= i < |rows|
    ensures var before, after := rows[i], Registered(rows, activityId)[i];
      && after.id == before.id && after.activityId == before.activityId
      && after.registrationFee == before.registrationFee && after.status == before.status
      && (before.activityId != activityId ==> after == before)
      && (before.activityId == activityId ==>
            after.participantCount == Some(OrZero(before.participantCount) + 1)
            && after.havemoney == Some(OrZero(before.havemoney) + OrZero(before.registrationFee)))
  {
  }

  /** An activity without a reward row: the table is unchanged and `register`
      reports `null`. */
  lemma RegisterMissing(rows: seq<RewardRow>, activityId: int)
    requires forall i | 0 <= i < |rows| :: rows[i].activityId != activityId
    ensures Registered(rows, activityId) == rows
    ensures FirstFor(Registered(rows, activityId), activityId) == None
  {
  }

  /** The reported row is the first row of the activity, as it reads after its
      own update. */
  lemma {:induction false} RegisterReports(rows: seq<RewardRow>, activityId: int)
    ensures FirstFor(Registered(rows, activityId), activityId)
      == match Find(rows, ForActivity(activityId))
         case Some(r) => Some(View(Bump(r)))
         case None => None
    decreases |rows|
  {
    if rows != [] {
      var after := Registered(rows, activityId);
      RegisteredTail(rows, activityId);
      if rows[0].activityId != activityId {
        assert after[0] == rows[0];
        RegisterReports(rows[1..], activityId);
      } else {
        assert after[0] == Bump(rows[0]);
      }
    }
  }

  /** Registrations commute: the table does not depend on their order. */
  lemma RegisterCommutes(rows: seq<RewardRow>, a: int, b: int)
    ensures Registered(Registered(rows, a), b) == Registered(Registered(rows, b), a)
  {
  }

  /** A reward row with 5 participants, 100 collected and a fee of 20 reads
      6 and 120 after one registration and 7 and 140 after a second. */
  lemma RegisterScenario()
    ensures var rows := [RewardRow(5, 7, Some(20), Some(5), Some(100), "active")];
      && FirstFor(Registered(rows, 7), 7) == Some(RewardView(5, Some(20), Some(6), Some(120), "active"))
      && FirstFor(Registered(Registered(rows, 7), 7), 7) == Some(RewardView(5, Some(20), Some(7), Some(140), "active"))
  {
    var rows := [RewardRow(5, 7, Some(20), Some(5), Some(100), "active")];
    RegisterReports(rows, 7);
    RegisterReports(Registered(rows, 7), 7);
  }
}
