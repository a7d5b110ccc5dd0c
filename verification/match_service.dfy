/**
 * MatchService: a matching run for one job (score the candidate pool, keep
 * those above the threshold, rank them, store the new ones as suggestions),
 * the match queries, and status changes and deletion of a match.
 */
module MatchService {
  import opened Wrappers
  import opened GeoUtils
  import opened Domain
  import opened Criteria
  import opened MatchingEngine
  import opened Ranking
  import opened Store
  import opened MatchSpec
  import opened MatchProperties

  /** `buildMatchCriteria`: starts from the builder defaults and applies each present override. */
  method BuildMatchCriteria(req: MatchRequest) returns (c: MatchCriteria)
    ensures c == CriteriaFor(req)
  {
    c := DEFAULT;
    if req.distanceWeight.Some? { c := c.(distanceWeight := req.distanceWeight.value); }
    if req.expertiseWeight.Some? { c := c.(expertiseWeight := req.expertiseWeight.value); }
    if req.availabilityWeight.Some? { c := c.(availabilityWeight := req.availabilityWeight.value); }
    if req.ratingWeight.Some? { c := c.(ratingWeight := req.ratingWeight.value); }
    if req.priceWeight.Some? { c := c.(priceWeight := req.priceWeight.value); }
    if req.minimumMatchScore.Some? { c := c.(minimumMatchScore := req.minimumMatchScore.value); }
    if req.maxMatches.Some? { c := c.(maxMatches := req.maxMatches.value); }
    if req.verifiedOnly.Some? { c := c.(verifiedOnly := req.verifiedOnly.value); }
  }

  /** The scoring loop of `findMatches`: scores the pool in order, keeping those that reach the threshold. */
  method ScorePool(profs: map<Id, ProfessionalRow>, pool: seq<Id>, job: JobRow, c: MatchCriteria, arc: Arc)
    returns (scored: seq<Candidate>)
    requires forall i :: 0 <= i < |pool| ==> pool[i] in profs
    ensures scored == Scored(profs, pool, job, c, arc)
  {
    scored := [];
    var i := 0;
    while i < |pool|
      invariant 0 <= i <= |pool|
      invariant scored == Scored(profs, pool[..i], job, c, arc)
    {
      var s := CalculateMatchScore(profs[pool[i]], job, c, arc);
      assert pool[..i + 1][..i] == pool[..i];
      assert Scored(profs, pool[..i + 1], job, c, arc) ==
        if s.Success? && s.value.totalScore >= c.minimumMatchScore then scored + [Candidate(pool[i], s.value)]
        else scored;
      if s.Success? && s.value.totalScore >= c.minimumMatchScore {
        scored := scored + [Candidate(pool[i], s.value)];
      }
      i := i + 1;
    }
    assert pool[..i] == pool;
  }

  /**
   * The persisting loop of `findMatches`: saves each ranked candidate whose
   * pair is not matched yet. A failed insert rolls every save back.
   */
  method SaveMatches(db: Database, jobId: Id, ranked: seq<Candidate>) returns (created: seq<MatchView>, failed: bool)
    requires KeysBelow(db.matches, db.nextMatchId) && MatchPairsUnique(db.matches)
    modifies db`matches, db`nextMatchId
    ensures KeysBelow(db.matches, db.nextMatchId) && MatchPairsUnique(db.matches)
    ensures failed <==> Persist(old(db.matches), old(db.nextMatchId), jobId, ranked).None?
    ensures failed ==> db.matches == old(db.matches) && db.nextMatchId == old(db.nextMatchId)
    ensures !failed ==>
      Persist(old(db.matches), old(db.nextMatchId), jobId, ranked) == Some(Saved(db.matches, db.nextMatchId, created))
  {
    var matches0, next0 := db.matches, db.nextMatchId;
    created, failed := [], false;
    var k := 0;
    while k < |ranked|
      invariant 0 <= k <= |ranked|
      invariant failed <==> Persist(matches0, next0, jobId, ranked[..k]).None?
      invariant !failed ==>
        Persist(matches0, next0, jobId, ranked[..k]) == Some(Saved(db.matches, db.nextMatchId, created))
    {
      assert ranked[..k + 1][..k] == ranked[..k];
      var cand := ranked[k];
      if !failed && !MatchPairExists(db.matches, jobId, cand.professionalId) {
        if FitsColumns(cand.breakdown) {
          var row := NewMatchRow(jobId, cand);
          var id := db.nextMatchId;
          db.matches := db.matches[id := row];
          db.nextMatchId := id + 1;
          created := created + [ViewWithBreakdown(id, row, cand.breakdown)];
        } else {
          failed := true;
        }
      }
      k := k + 1;
    }
    assert ranked[..k] == ranked;
    if !failed {
      PersistKeepsPairsUnique(matches0, next0, jobId, ranked);
    }
    if failed {
      // the failed insert marked the transaction rollback-only: nothing is kept
      db.matches, db.nextMatchId := matches0, next0;
    }
  }

  /** The end of `findMatches`: saves the ranked candidates, then marks a PENDING job MATCHED if any was saved. */
  method FinishRun(db: Database, jobId: Id, ranked: seq<Candidate>) returns (r: Result<seq<MatchView>>)
    requires db.Valid() && jobId in db.jobs
    modifies db`jobs, db`matches, db`nextMatchId
    ensures Outcome(r, db.jobs, db.matches, db.nextMatchId) ==
            MatchSpec.Conclude(old(db.jobs), jobId, old(db.matches), old(db.nextMatchId), ranked)
    ensures db.Valid()
  {
    var job := db.jobs[jobId];
    var created, failed := SaveMatches(db, jobId, ranked);
    if failed {
      return Failure(Fault("transaction rolled back"));
    }
    var status := if created != [] && job.status == Pending then Matched else job.status;
    db.jobs := db.jobs[jobId := job.(status := status)];
    assert db.jobs.Keys == old(db.jobs).Keys;
    r := Success(created);
  }

  /** `findMatches`: one run of matching for the requested job. */
  method FindMatches(db: Database, req: MatchRequest, arc: Arc) returns (r: Result<seq<MatchView>>)
    requires db.Valid()
    modifies db`jobs, db`matches, db`nextMatchId
    ensures Outcome(r, db.jobs, db.matches, db.nextMatchId) ==
            FindMatchesSpec(old(db.jobs), db.professionals, db.nextProfessionalId,
                            old(db.matches), old(db.nextMatchId), req, arc)
    ensures db.Valid()
  {
    if req.jobId !in db.jobs {
      return Failure(NotFound("Job"));
    }
    var job := db.jobs[req.jobId];
    if job.status != Pending && job.status != Matched {
      return Failure(Invalid("job is not open"));
    }
    var c := BuildMatchCriteria(req);
    var pool := Pool(db.professionals, db.nextProfessionalId, c.verifiedOnly);
    var scored := ScorePool(db.professionals, pool, job, c, arc);
    if c.maxMatches < 0 {
      return Failure(Invalid("negative limit"));
    }
    var ranked := Ranked(scored, c.maxMatches);
    assert ranked == RankedFor(db.professionals, db.nextProfessionalId, job, c, arc);
    r := FinishRun(db, req.jobId, ranked);
  }

  /** `getMatchesByJobId`. */
  function GetMatchesByJobId(db: Database, jobId: Id): (r: Result<seq<MatchView>>)
    reads db
    ensures r == MatchesByJob(db.jobs, db.matches, db.nextMatchId, jobId)
  {
    MatchesByJob(db.jobs, db.matches, db.nextMatchId, jobId)
  }

  /** `getMatchesByProfessionalId`. */
  function GetMatchesByProfessionalId(db: Database, professionalId: Id): (r: Result<seq<MatchView>>)
    reads db
    ensures r == MatchesByProfessional(db.professionals, db.matches, db.nextMatchId, professionalId)
  {
    MatchesByProfessional(db.professionals, db.matches, db.nextMatchId, professionalId)
  }

  /** `updateMatchStatus`: sets any status, with no transition check, and reads the match back. */
  method UpdateMatchStatus(db: Database, matchId: Id, status: MatchStatus) returns (r: Result<MatchView>)
    requires db.Valid()
    modifies db`matches
    ensures db.Valid()
    ensures matchId !in old(db.matches) ==> r == Failure(NotFound("Match")) && db.matches == old(db.matches)
    ensures matchId in old(db.matches) ==>
      db.matches == old(db.matches)[matchId := old(db.matches)[matchId].(status := status)] &&
      r == Success(ReadBack(matchId, db.matches[matchId]))
  {
    if matchId !in db.matches {
      return Failure(NotFound("Match"));
    }
    var row := db.matches[matchId].(status := status);
    db.matches := db.matches[matchId := row];
    r := Success(ReadBack(matchId, row));
  }

  /** `deleteMatch`. */
  method DeleteMatch(db: Database, matchId: Id) returns (r: Result<()>)
    requires db.Valid()
    modifies db`matches
    ensures db.Valid()
    ensures matchId !in old(db.matches) ==> r == Failure(NotFound("Match")) && db.matches == old(db.matches)
    ensures matchId in old(db.matches) ==> r == Success(()) && db.matches == old(db.matches) - {matchId}
  {
    if matchId !in db.matches {
      return Failure(NotFound("Match"));
    }
    db.matches := db.matches - {matchId};
    r := Success(());
  }
}
