/**
 * What a matching run does, as functions of the tables: the criteria of a
 * request, the candidate pool, the scored and ranked candidates, the views
 * handed back, and the persisting loop with its rollback.
 */
module MatchSpec {
  import opened Wrappers
  import opened Numbers
  import opened GeoUtils
  import opened Domain
  import opened Criteria
  import opened MatchingEngine
  import opened Ranking
  import opened Store

  // ------------------------------------------------------------ criteria

  /** A request to match one job; each absent override keeps the criteria default. */
  datatype MatchRequest = MatchRequest(
    jobId: Id,
    distanceWeight: Option<real>,
    expertiseWeight: Option<real>,
    availabilityWeight: Option<real>,
    ratingWeight: Option<real>,
    priceWeight: Option<real>,
    minimumMatchScore: Option<real>,
    maxMatches: Option<int>,
    verifiedOnly: Option<bool>)

  predicate NoOverrides(req: MatchRequest) {
    req.distanceWeight.None? && req.expertiseWeight.None? && req.availabilityWeight.None? &&
    req.ratingWeight.None? && req.priceWeight.None? && req.minimumMatchScore.None? &&
    req.maxMatches.None? && req.verifiedOnly.None?
  }

  predicate NoWeightOverrides(req: MatchRequest) {
    req.distanceWeight.None? && req.expertiseWeight.None? && req.availabilityWeight.None? &&
    req.ratingWeight.None? && req.priceWeight.None?
  }

  /** The criteria of a request: each given override replaces its default. */
  function CriteriaFor(req: MatchRequest): (c: MatchCriteria)
    ensures NoOverrides(req) ==> c == DEFAULT
    ensures NoWeightOverrides(req) ==> HasBalancedWeights(c)
    ensures req.maxMatches.None? ==> c.maxMatches == 10
    ensures req.verifiedOnly.None? ==> c.verifiedOnly
    ensures req.minimumMatchScore.None? ==> c.minimumMatchScore == 50.0
  {
    DefaultsAreBalanced();
    MatchCriteria(
      req.distanceWeight.GetOr(DEFAULT.distanceWeight),
      req.expertiseWeight.GetOr(DEFAULT.expertiseWeight),
      req.availabilityWeight.GetOr(DEFAULT.availabilityWeight),
      req.ratingWeight.GetOr(DEFAULT.ratingWeight),
      req.priceWeight.GetOr(DEFAULT.priceWeight),
      req.minimumMatchScore.GetOr(DEFAULT.minimumMatchScore),
      req.maxMatches.GetOr(DEFAULT.maxMatches),
      req.verifiedOnly.GetOr(DEFAULT.verifiedOnly))
  }

  // ------------------------------------------------------------ the pool

  /** The candidate pool: every professional, or only the verified ones. */
  function Pool(profs: map<Id, ProfessionalRow>, next: Id, verifiedOnly: bool): (pool: seq<Id>)
    ensures forall i :: 0 <= i < |pool| ==> pool[i] in profs && (verifiedOnly ==> profs[pool[i]].isVerified)
    ensures forall id :: id in profs && id < next && (!verifiedOnly || profs[id].isVerified) ==> id in pool
    ensures forall i, j :: 0 <= i < j < |pool| ==> pool[i] < pool[j]
  {
    Select(profs, next, (p: ProfessionalRow) => !verifiedOnly || p.isVerified)
  }

  /** A professional whose score passed the threshold, with that score. */
  datatype Candidate = Candidate(professionalId: Id, breakdown: ScoreBreakdown)

  function TotalOf(c: Candidate): real { c.breakdown.totalScore }

  /** Whether a professional of the pool scores, and reaches the threshold. */
  predicate Qualifies(p: ProfessionalRow, job: JobRow, c: MatchCriteria, arc: Arc) {
    var r := MatchScore(p, job, c, arc);
    r.Success? && r.value.totalScore >= c.minimumMatchScore
  }

  /** The scoring loop: the pool's qualifying professionals in pool order; a failed score is skipped. */
  function Scored(profs: map<Id, ProfessionalRow>, pool: seq<Id>, job: JobRow, c: MatchCriteria, arc: Arc)
    : (r: seq<Candidate>)
    requires forall i :: 0 <= i < |pool| ==> pool[i] in profs
    ensures |r| <= |pool|
    ensures forall k :: 0 <= k < |r| ==>
      r[k].professionalId in pool && r[k].professionalId in profs &&
      MatchScore(profs[r[k].professionalId], job, c, arc) == Success(r[k].breakdown) &&
      TotalOf(r[k]) >= c.minimumMatchScore
  {
    if pool == [] then []
    else
      var rest := Scored(profs, pool[..|pool| - 1], job, c, arc);
      var id := pool[|pool| - 1];
      var s := MatchScore(profs[id], job, c, arc);
      if s.Success? && s.value.totalScore >= c.minimumMatchScore then rest + [Candidate(id, s.value)]
      else rest
  }

  /** One step of the scoring loop: what was kept before stays, and a qualifying last professional is appended. */
  lemma ScoredStep(profs: map<Id, ProfessionalRow>, pool: seq<Id>, job: JobRow, c: MatchCriteria, arc: Arc)
    requires forall i :: 0 <= i < |pool| ==> pool[i] in profs
    requires pool != []
    ensures var r := Scored(profs, pool, job, c, arc);
      var r0 := Scored(profs, pool[..|pool| - 1], job, c, arc);
      |r0| <= |r| && r[..|r0|] == r0 &&
      (Qualifies(profs[pool[|pool| - 1]], job, c, arc) ==> |r| == |r0| + 1 && r[|r0|].professionalId == pool[|pool| - 1])
  {
  }

  /** An element other than the last one lies in the part before it. */
  lemma InFrontPart(pool: seq<Id>, id: Id)
    requires id in pool && pool[|pool| - 1] != id
    ensures id in pool[..|pool| - 1]
  {
    var i :| 0 <= i < |pool| && pool[i] == id;
    assert pool[..|pool| - 1][i] == id;
  }

  /** Every pool professional that scores and reaches the threshold is kept. */
  lemma {:induction false} ScoredComplete(profs: map<Id, ProfessionalRow>, pool: seq<Id>, job: JobRow,
                                          c: MatchCriteria, arc: Arc, id: Id)
    requires forall i :: 0 <= i < |pool| ==> pool[i] in profs
    requires id in pool && Qualifies(profs[id], job, c, arc)
    ensures var r := Scored(profs, pool, job, c, arc);
      exists k :: 0 <= k < |r| && r[k].professionalId == id
  {
    var init := pool[..|pool| - 1];
    var r := Scored(profs, pool, job, c, arc);
    var r0 := Scored(profs, init, job, c, arc);
    ScoredStep(profs, pool, job, c, arc);
    if pool[|pool| - 1] == id {
      assert r[|r0|].professionalId == id;
    } else {
      InFrontPart(pool, id);
      ScoredComplete(profs, init, job, c, arc, id);
      var k :| 0 <= k < |r0| && r0[k].professionalId == id;
      assert r[k] == r[..|r0|][k] == r0[k];
    }
  }

  /** Sorted by total score, greatest first, and cut to the cap. */
  function Ranked(scored: seq<Candidate>, maxMatches: nat): (ranked: seq<Candidate>)
    ensures |ranked| <= maxMatches && |ranked| <= |scored|
    ensures IsSortedDesc(ranked, TotalOf)
  {
    SortDescCorrect(scored, TotalOf);
    Take(SortDesc(scored, TotalOf), maxMatches)
  }

  // ----------------------------------------------------------- the views

  /** The reason texts of a breakdown, reduced to their buckets. */
  datatype Reasons = Reasons(
    distance: DistanceReason,
    expertise: ExpertiseReason,
    availability: AvailabilityReason,
    rating: RatingReason,
    price: PriceReason)

  /** A `MatchDto`: the stored match and the score breakdown it carries. */
  datatype MatchView = MatchView(
    id: Id,
    jobId: Id,
    professionalId: Id,
    matchScore: real,
    status: MatchStatus,
    distanceKm: real,
    distanceScore: real,
    expertiseScore: real,
    availabilityScore: real,
    ratingScore: real,
    priceScore: real,
    totalScore: real,
    reasons: Option<Reasons>)

  /** The row a run stores for a candidate: its rounded figures, as a suggestion. */
  function NewMatchRow(jobId: Id, cand: Candidate): (row: MatchRow)
    ensures row.jobId == jobId && row.professionalId == cand.professionalId && row.status == Suggested
    ensures row.matchScore == TotalOf(cand) && row.distanceKm == cand.breakdown.distanceKm
    ensures row.expertiseScore == cand.breakdown.expertiseScore &&
            row.availabilityScore == cand.breakdown.availabilityScore &&
            row.ratingScore == cand.breakdown.ratingScore && row.priceScore == cand.breakdown.priceScore
  {
    var b := cand.breakdown;
    MatchRow(jobId, cand.professionalId, b.totalScore, b.distanceKm, b.expertiseScore,
             b.availabilityScore, b.ratingScore, b.priceScore, Suggested)
  }

  /** `mapToDto(match, breakdown)`: a stored match with the engine's own breakdown. */
  function ViewWithBreakdown(id: Id, row: MatchRow, b: ScoreBreakdown): (v: MatchView)
    ensures v.id == id && v.jobId == row.jobId && v.professionalId == row.professionalId
    ensures v.matchScore == row.matchScore && v.status == row.status
    ensures v.distanceKm == b.distanceKm && v.distanceScore == b.distanceScore && v.totalScore == b.totalScore
    ensures v.expertiseScore == b.expertiseScore && v.availabilityScore == b.availabilityScore &&
            v.ratingScore == b.ratingScore && v.priceScore == b.priceScore
    ensures v.reasons == Some(Reasons(b.distanceReason, b.expertiseReason, b.availabilityReason,
                                      b.ratingReason, b.priceReason))
  {
    MatchView(id, row.jobId, row.professionalId, row.matchScore, row.status,
              b.distanceKm, b.distanceScore, b.expertiseScore, b.availabilityScore,
              b.ratingScore, b.priceScore, b.totalScore,
              Some(Reasons(b.distanceReason, b.expertiseReason, b.availabilityReason,
                           b.ratingReason, b.priceReason)))
  }

  /**
   * `mapToDto(match)`: a stored match read back. The row keeps no distance
   * score, so one is derived from the distance as 100 - 2 * distanceKm, and
   * the reasons are absent.
   */
  function ReadBack(id: Id, row: MatchRow): (v: MatchView)
    ensures v.id == id && v.jobId == row.jobId && v.professionalId == row.professionalId && v.status == row.status
    ensures v.matchScore == v.totalScore == row.matchScore && v.reasons.None?
    ensures v.distanceKm == row.distanceKm && v.distanceScore + 2.0 * v.distanceKm == 100.0
  {
    MatchView(id, row.jobId, row.professionalId, row.matchScore, row.status,
              row.distanceKm, 100.0 - row.distanceKm * 2.0, row.expertiseScore, row.availabilityScore,
              row.ratingScore, row.priceScore, row.matchScore, None)
  }

  // ---------------------------------------------------------- persisting

  /** Whether a figure fits its column: `matches` declares distance_km NUMERIC(6,2) and the scores NUMERIC(5,2). */
  predicate FitsColumns(b: ScoreBreakdown)
    ensures 0.0 <= b.totalScore <= 100.0 && 0.0 <= b.expertiseScore <= 100.0 && 0.0 <= b.availabilityScore <= 100.0 &&
            0.0 <= b.ratingScore <= 100.0 && 0.0 <= b.priceScore <= 100.0 && 0.0 <= b.distanceKm ==>
      (FitsColumns(b) <==> b.distanceKm < 10000.0)
  {
    -10000.0 < b.distanceKm < 10000.0 &&
    -1000.0 < b.totalScore < 1000.0 && -1000.0 < b.expertiseScore < 1000.0 &&
    -1000.0 < b.availabilityScore < 1000.0 && -1000.0 < b.ratingScore < 1000.0 &&
    -1000.0 < b.priceScore < 1000.0
  }

  /** The match table after some saves, and the views of the matches created so far. */
  datatype Saved = Saved(matches: map<Id, MatchRow>, next: Id, created: seq<MatchView>)

  /**
   * One save of the persisting loop: a pair that is already matched is
   * skipped; a figure too wide for its column makes the insert fail, which
   * marks the transaction for rollback (`None`); otherwise the row is inserted
   * under the next id.
   */
  function PersistStep(st: Saved, jobId: Id, cand: Candidate): (r: Option<Saved>)
    ensures r.None? <==> !MatchPairExists(st.matches, jobId, cand.professionalId) && !FitsColumns(cand.breakdown)
    ensures r.Some? ==>
      MatchPairExists(r.value.matches, jobId, cand.professionalId) &&
      (KeysBelow(st.matches, st.next) ==>
         KeysBelow(r.value.matches, r.value.next) &&
         forall id :: id in st.matches ==> id in r.value.matches && r.value.matches[id] == st.matches[id]) &&
      st.created <= r.value.created && |r.value.created| <= |st.created| + 1 &&
      r.value.next == st.next + (|r.value.created| - |st.created|)
  {
    if MatchPairExists(st.matches, jobId, cand.professionalId) then Some(st)
    else if !FitsColumns(cand.breakdown) then None
    else
      var row := NewMatchRow(jobId, cand);
      assert st.matches[st.next := row][st.next] == row;
      Some(Saved(st.matches[st.next := row], st.next + 1,
                 st.created + [ViewWithBreakdown(st.next, row, cand.breakdown)]))
  }

  /** The persisting loop over the ranked candidates, in rank order. */
  function Persist(matches: map<Id, MatchRow>, next: Id, jobId: Id, cands: seq<Candidate>): (r: Option<Saved>)
    ensures r.None? ==> exists k :: 0 <= k < |cands| && !FitsColumns(cands[k].breakdown)
  {
    if cands == [] then Some(Saved(matches, next, []))
    else
      match Persist(matches, next, jobId, cands[..|cands| - 1])
      case None => None
      case Some(st) => PersistStep(st, jobId, cands[|cands| - 1])
  }

  // ---------------------------------------------------------------- a run

  /** What a run leaves behind: its answer and the tables it may change. */
  datatype Outcome = Outcome(
    result: Result<seq<MatchView>>,
    jobs: map<Id, JobRow>,
    matches: map<Id, MatchRow>,
    nextMatchId: Id)

  /** An open job: the only statuses a run accepts. */
  predicate IsOpen(s: JobStatus) { s == Pending || s == Matched }

  /** The status a job takes after a run that created `created`. */
  function StatusAfterRun(s: JobStatus, created: seq<MatchView>): (r: JobStatus)
    ensures r == s || (s == Pending && r == Matched)
    ensures r == Matched <==> s == Matched || (s == Pending && created != [])
    ensures IsOpen(s) ==> IsOpen(r)
  {
    if created != [] && s == Pending then Matched else s
  }

  /** The candidates a run tries to save: the pool scored, filtered, ranked and capped. */
  function RankedFor(profs: map<Id, ProfessionalRow>, nextProfessionalId: Id, job: JobRow,
                     c: MatchCriteria, arc: Arc): seq<Candidate>
    requires c.maxMatches >= 0
  {
    Ranked(Scored(profs, Pool(profs, nextProfessionalId, c.verifiedOnly), job, c, arc), c.maxMatches)
  }

  /** The end of a run for an open job: the persisting loop, then the job's status. */
  function Conclude(jobs: map<Id, JobRow>, jobId: Id, matches: map<Id, MatchRow>, nextMatchId: Id,
                    ranked: seq<Candidate>): (o: Outcome)
    requires jobId in jobs
    ensures o.result.Failure? ==> o.jobs == jobs && o.matches == matches && o.nextMatchId == nextMatchId
  {
    match Persist(matches, nextMatchId, jobId, ranked)
    case None => Outcome(Failure(Fault("transaction rolled back")), jobs, matches, nextMatchId)
    case Some(st) =>
      var job := jobs[jobId];
      Outcome(Success(st.created), jobs[jobId := job.(status := StatusAfterRun(job.status, st.created))],
              st.matches, st.next)
  }

  /** `findMatches`, as a function of the tables it reads and writes; a failed run changes nothing. */
  function FindMatchesSpec(jobs: map<Id, JobRow>, profs: map<Id, ProfessionalRow>, nextProfessionalId: Id,
                           matches: map<Id, MatchRow>, nextMatchId: Id, req: MatchRequest, arc: Arc): (o: Outcome)
    ensures o.result.Failure? ==> o.jobs == jobs && o.matches == matches && o.nextMatchId == nextMatchId
  {
    if req.jobId !in jobs then Outcome(Failure(NotFound("Job")), jobs, matches, nextMatchId)
    else
      var job := jobs[req.jobId];
      if !IsOpen(job.status) then Outcome(Failure(Invalid("job is not open")), jobs, matches, nextMatchId)
      else
        var c := CriteriaFor(req);
        if c.maxMatches < 0 then Outcome(Failure(Invalid("negative limit")), jobs, matches, nextMatchId)
        else Conclude(jobs, req.jobId, matches, nextMatchId, RankedFor(profs, nextProfessionalId, job, c, arc))
  }

  // ------------------------------------------------------------- queries

  /** The ordering key of the job's match query: a match id's stored score. */
  function ByScore(m: map<Id, MatchRow>): Id -> real {
    (id: Id) => if id in m then m[id].matchScore else 0.0
  }

  /** The filter of the job's match query. */
  function OfJob(jobId: Id): MatchRow -> bool {
    (row: MatchRow) => row.jobId == jobId
  }

  /**
   * `findByJobIdOrderByMatchScoreDesc`: the ids of the job's matches, best
   * score first; equal scores keep ascending id order.
   */
  function JobMatchIds(m: map<Id, MatchRow>, next: Id, jobId: Id): (ids: seq<Id>)
    ensures forall id :: id in ids <==> id in m && id < next && m[id].jobId == jobId
  {
    SelectedMatches(m, next, jobId);
    SortDescSameElements(Select(m, next, OfJob(jobId)), ByScore(m));
    SortDesc(Select(m, next, OfJob(jobId)), ByScore(m))
  }

  /** The job's match query returns each of its matches exactly once, best score first. */
  lemma JobMatchIdsCorrect(m: map<Id, MatchRow>, next: Id, jobId: Id)
    ensures var ids := JobMatchIds(m, next, jobId);
      Distinct(ids) &&
      (forall i :: 0 <= i < |ids| ==> ids[i] in m && m[ids[i]].jobId == jobId) &&
      (forall id :: id in m && id < next && m[id].jobId == jobId ==> id in ids) &&
      (forall i, j :: 0 <= i < j < |ids| ==> m[ids[i]].matchScore >= m[ids[j]].matchScore)
  {
    var selected := Select(m, next, OfJob(jobId));
    SelectedMatches(m, next, jobId);
    SortDescSameElements(selected, ByScore(m));
    SortDescDistinct(selected, ByScore(m));
    JobMatchIdsOrdered(m, next, jobId);
  }

  lemma SelectedMatches(m: map<Id, MatchRow>, next: Id, jobId: Id)
    ensures var selected := Select(m, next, OfJob(jobId));
      Distinct(selected) &&
      (forall id :: id in selected <==> id in m && id < next && m[id].jobId == jobId)
  {
  }

  lemma JobMatchIdsOrdered(m: map<Id, MatchRow>, next: Id, jobId: Id)
    ensures var ids := JobMatchIds(m, next, jobId);
      forall i, j :: 0 <= i < j < |ids| && ids[i] in m && ids[j] in m ==> m[ids[i]].matchScore >= m[ids[j]].matchScore
  {
    var selected := Select(m, next, OfJob(jobId));
    SortDescCorrect(selected, ByScore(m));
  }

  /** Every stored match of the ids, read back. */
  function ReadBackAll(m: map<Id, MatchRow>, ids: seq<Id>): (vs: seq<MatchView>)
    requires forall i :: 0 <= i < |ids| ==> ids[i] in m
    ensures |vs| == |ids|
    ensures forall i :: 0 <= i < |ids| ==> vs[i] == ReadBack(ids[i], m[ids[i]])
  {
    seq(|ids|, i requires 0 <= i < |ids| => ReadBack(ids[i], m[ids[i]]))
  }

  /** `getMatchesByJobId`: not found for an unknown job, else its matches read back, best first. */
  function MatchesByJob(jobs: map<Id, JobRow>, m: map<Id, MatchRow>, next: Id, jobId: Id)
    : (r: Result<seq<MatchView>>)
    ensures jobId !in jobs <==> r.Failure?
    ensures r.Success? ==>
      (forall i :: 0 <= i < |r.value| ==> r.value[i].jobId == jobId && r.value[i].id in m &&
                                          r.value[i] == ReadBack(r.value[i].id, m[r.value[i].id])) &&
      (forall i, j :: 0 <= i < j < |r.value| ==> r.value[i].matchScore >= r.value[j].matchScore) &&
      (forall i, j :: 0 <= i < j < |r.value| ==> r.value[i].id != r.value[j].id) &&
      (forall id :: id in m && id < next && m[id].jobId == jobId ==> exists i :: 0 <= i < |r.value| && r.value[i].id == id)
  {
    if jobId !in jobs then Failure(NotFound("Job"))
    else
      var ids := JobMatchIds(m, next, jobId);
      JobMatchIdsCorrect(m, next, jobId);
      var vs := ReadBackAll(m, ids);
      assert forall id :: id in ids ==> exists i :: 0 <= i < |vs| && vs[i].id == id;
      Success(vs)
  }

  /** `getMatchesByProfessionalId`: not found for an unknown professional, else its matches in id order. */
  function MatchesByProfessional(profs: map<Id, ProfessionalRow>, m: map<Id, MatchRow>, next: Id, professionalId: Id)
    : (r: Result<seq<MatchView>>)
    ensures professionalId !in profs <==> r.Failure?
    ensures r.Success? ==>
      (forall i :: 0 <= i < |r.value| ==> r.value[i].professionalId == professionalId && r.value[i].id in m &&
                                          r.value[i] == ReadBack(r.value[i].id, m[r.value[i].id])) &&
      (forall i, j :: 0 <= i < j < |r.value| ==> r.value[i].id < r.value[j].id) &&
      (forall id :: id in m && id < next && m[id].professionalId == professionalId ==>
                    exists i :: 0 <= i < |r.value| && r.value[i].id == id)
  {
    if professionalId !in profs then Failure(NotFound("Professional"))
    else
      var ids := Select(m, next, (row: MatchRow) => row.professionalId == professionalId);
      var vs := ReadBackAll(m, ids);
      assert forall id :: id in ids ==> exists i :: 0 <= i < |vs| && vs[i].id == id;
      Success(vs)
  }
}
