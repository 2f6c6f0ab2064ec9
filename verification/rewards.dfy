/** `checkUserRewards` of main.js (lines 112-126): read the referral stats,
    claim the unclaimed points when there are any, and report the claim as
    successful only on a `code` of 200. The two HTTP replies are inputs:
    the requests themselves live in api.js, which is not part of this
    model. */
module Rewards {
  import opened Options

  /** The `data` object of a `/api/referrals/stats` reply, reduced to the
      one field the decision reads. `None` is an absent or `null` field:
      both compare as not greater than 0. */
  datatype ReferralStats = ReferralStats(totalUnclaimedPoints: Option<real>)

  /** A parsed stats reply. `data` is `None` when the field is absent,
      `null`, or any other value that is not an object, all of which make
      `response?.data || 0` yield no points. */
  datatype StatsReply = StatsReply(data: Option<ReferralStats>)

  /** A parsed `/api/referrals/claim_points` reply. `code` is `None` when it
      is absent or not a number, so never `=== 200`. */
  datatype ClaimReply = ClaimReply(code: Option<real>)

  /** Whether `claimPoints` is called, and for how many points. */
  datatype Decision = NoClaim | Claim(points: real)

  /** The reply carrying exactly `points` unclaimed points. */
  function StatsWith(points: real): StatsReply {
    StatsReply(Some(ReferralStats(Some(points))))
  }

  /** The balance test of `checkUserRewards`: the unclaimed points are read
      out of the reply's `data` (falling back to 0 when there is none) and a
      claim follows only when they exceed 0. A missing reply (`getUserRef`
      returns `null` on any failure), missing data or a missing field all
      mean no claim; so does a balance of zero or less. */
  function Decide(stats: Option<StatsReply>): (d: Decision)
    ensures d.Claim? ==> d.points > 0.0 && stats == Some(StatsWith(d.points))
    ensures stats.None? ==> d == NoClaim
    ensures stats.Some? && stats.value.data.None? ==> d == NoClaim
  {
    match stats
    case Some(StatsReply(Some(ReferralStats(Some(points))))) =>
      if points > 0.0 then Claim(points) else NoClaim
    case _ => NoClaim
  }

  /** Every positive balance is claimed in full; no other balance is. */
  lemma DecideExactly(points: real)
    ensures Decide(Some(StatsWith(points))) == (if points > 0.0 then Claim(points) else NoClaim)
  {
  }

  /** The requests `checkUserRewards` issues, in order. */
  datatype Call = GetUserRef | ClaimPoints

  /** What ends up in the log: nothing, the success line with the amount,
      or the error line written when the claim reply is `null` and reading
      `claimResponse.code` throws. */
  datatype Report = Quiet | ClaimSucceeded(points: real) | ClaimErrored

  datatype RewardCheck = RewardCheck(calls: seq<Call>, report: Report)

  /** One run of `checkUserRewards`. `claim` is what `claimPoints` would
      return; it is consulted only when the claim is made. */
  function CheckUserRewards(stats: Option<StatsReply>, claim: Option<ClaimReply>): (c: RewardCheck)
    ensures |c.calls| >= 1 && c.calls[0] == GetUserRef
    ensures c.calls == [GetUserRef] + (if Decide(stats).Claim? then [ClaimPoints] else [])
    ensures ClaimPoints in c.calls <==> Decide(stats).Claim?
    ensures multiset(c.calls)[ClaimPoints] <= 1
    ensures c.report.ClaimSucceeded? <==>
              Decide(stats).Claim? && claim.Some? && claim.value.code == Some(200.0)
    ensures c.report.ClaimSucceeded? ==> Decide(stats) == Claim(c.report.points)
    ensures c.report.ClaimErrored? <==> Decide(stats).Claim? && claim.None?
  {
    match Decide(stats)
    case NoClaim => RewardCheck([GetUserRef], Quiet)
    case Claim(points) =>
      var report :=
        match claim
        case None => ClaimErrored
        case Some(reply) => if reply.code == Some(200.0) then ClaimSucceeded(points) else Quiet;
      RewardCheck([GetUserRef, ClaimPoints], report)
  }

  /** A balance of zero or less never reaches `claimPoints`, whatever that
      endpoint would have answered. */
  lemma NothingDueNoClaim(points: real, claim: Option<ClaimReply>)
    requires points <= 0.0
    ensures CheckUserRewards(Some(StatsWith(points)), claim) == RewardCheck([GetUserRef], Quiet)
  {
  }

  /** 150 unclaimed points and a reply of `{code: 200}`: one claim request
      and the success line for 150 points. */
  lemma ClaimOneHundredFifty()
    ensures CheckUserRewards(Some(StatsWith(150.0)), Some(ClaimReply(Some(200.0))))
         == RewardCheck([GetUserRef, ClaimPoints], ClaimSucceeded(150.0))
  {
  }

  /** A claim whose reply carries any other code is made but not reported. */
  lemma ClaimRejectedQuiet(points: real, code: Option<real>)
    requires points > 0.0 && code != Some(200.0)
    ensures CheckUserRewards(Some(StatsWith(points)), Some(ClaimReply(code)))
         == RewardCheck([GetUserRef, ClaimPoints], Quiet)
  {
  }
}
