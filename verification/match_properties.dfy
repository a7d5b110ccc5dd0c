/**
 * What a matching run guarantees: the persisting loop only adds fresh
 * suggestions for unmatched pairs and keeps the pair constraint, the answer
 * is capped, above the threshold and ranked, the job moves from PENDING to
 * MATCHED exactly when something was created, and a second identical run
 * changes nothing.
 */
module MatchProperties {
  import opened Wrappers
  import opened GeoUtils
  import opened Domain
  import opened Criteria
  import opened MatchingEngine
  import opened Ranking
  import opened Store
  import Numbers
  import opened MatchSpec

  // ------------------------------------------------- the persisting loop

  /** The loop keeps every existing row, and the created views are the rows it added, numbered from `next`. */
  lemma {:induction false} PersistGrows(m: map<Id, MatchRow>, next: Id, jobId: Id, cands: seq<Candidate>)
    requires Persist(m, next, jobId, cands).Some?
    requires KeysBelow(m, next)
    ensures var st := Persist(m, next, jobId, cands).value;
      (forall id :: id in m ==> id in st.matches && st.matches[id] == m[id]) &&
      st.next == next + |st.created| &&
      |st.created| <= |cands| &&
      (forall id :: id in st.matches ==> id in m || next <= id < st.next) &&
      (forall i :: 0 <= i < |st.created| ==>
        st.created[i].id == next + i && st.created[i].id in st.matches &&
        st.created[i].jobId == jobId && st.created[i].status == Suggested &&
        st.matches[st.created[i].id] ==
          MatchRow(jobId, st.created[i].professionalId, st.created[i].matchScore, st.created[i].distanceKm,
                   st.created[i].expertiseScore, st.created[i].availabilityScore,
                   st.created[i].ratingScore, st.created[i].priceScore, Suggested))
  {
    if cands != [] {
      PersistGrows(m, next, jobId, cands[..|cands| - 1]);
    }
  }

  /** Every created view comes from a candidate: its professional and its total. */
  lemma {:induction false} PersistOrigins(m: map<Id, MatchRow>, next: Id, jobId: Id, cands: seq<Candidate>)
    requires Persist(m, next, jobId, cands).Some?
    ensures var st := Persist(m, next, jobId, cands).value;
      forall i :: 0 <= i < |st.created| ==>
        exists k :: 0 <= k < |cands| && st.created[i].professionalId == cands[k].professionalId &&
                    st.created[i].matchScore == TotalOf(cands[k])
  {
    if cands != [] {
      var init := cands[..|cands| - 1];
      PersistOrigins(m, next, jobId, init);
      var st0 := Persist(m, next, jobId, init).value;
      var st := Persist(m, next, jobId, cands).value;
      forall i | 0 <= i < |st.created|
        ensures exists k :: 0 <= k < |cands| && st.created[i].professionalId == cands[k].professionalId &&
                            st.created[i].matchScore == TotalOf(cands[k])
      {
        if i < |st0.created| {
          assert st.created[i] == st0.created[i];
          var k :| 0 <= k < |init| && st0.created[i].professionalId == init[k].professionalId &&
                   st0.created[i].matchScore == TotalOf(init[k]);
          assert cands[k] == init[k];
        } else {
          assert st.created[i].professionalId == cands[|cands| - 1].professionalId;
        }
      }
    }
  }

  /** Ranked candidates give views ranked the same way. */
  lemma {:induction false} PersistKeepsRank(m: map<Id, MatchRow>, next: Id, jobId: Id, cands: seq<Candidate>)
    requires Persist(m, next, jobId, cands).Some?
    requires IsSortedDesc(cands, TotalOf)
    ensures var created := Persist(m, next, jobId, cands).value.created;
      forall i, j :: 0 <= i < j < |created| ==> created[i].matchScore >= created[j].matchScore
  {
    if cands != [] {
      var init, last := cands[..|cands| - 1], cands[|cands| - 1];
      assert IsSortedDesc(init, TotalOf) by {
        forall i, j | 0 <= i < j < |init| ensures TotalOf(init[i]) >= TotalOf(init[j]) {
          assert init[i] == cands[i] && init[j] == cands[j];
        }
      }
      PersistKeepsRank(m, next, jobId, init);
      PersistOrigins(m, next, jobId, init);
      var st0 := Persist(m, next, jobId, init).value;
      var created := Persist(m, next, jobId, cands).value.created;
      forall i, j | 0 <= i < j < |created| ensures created[i].matchScore >= created[j].matchScore {
        if j >= |st0.created| {
          assert created[i] == st0.created[i];
          var k :| 0 <= k < |init| && st0.created[i].professionalId == init[k].professionalId &&
                   st0.created[i].matchScore == TotalOf(init[k]);
          assert init[k] == cands[k];
        }
      }
    }
  }

  /** The loop never adds a second row for a pair, and only adds pairs that were not matched. */
  lemma {:induction false} PersistKeepsPairsUnique(m: map<Id, MatchRow>, next: Id, jobId: Id, cands: seq<Candidate>)
    requires Persist(m, next, jobId, cands).Some?
    requires KeysBelow(m, next) && MatchPairsUnique(m)
    ensures var st := Persist(m, next, jobId, cands).value;
      KeysBelow(st.matches, st.next) && MatchPairsUnique(st.matches) &&
      forall i :: 0 <= i < |st.created| ==> !MatchPairExists(m, jobId, st.created[i].professionalId)
  {
    if cands != [] {
      var init, last := cands[..|cands| - 1], cands[|cands| - 1];
      PersistKeepsPairsUnique(m, next, jobId, init);
      PersistGrows(m, next, jobId, init);
      var st0 := Persist(m, next, jobId, init).value;
      if !MatchPairExists(st0.matches, jobId, last.professionalId) && FitsColumns(last.breakdown) {
        assert !MatchPairExists(m, jobId, last.professionalId);
      }
    }
  }

  /** After the loop every ranked candidate's pair is matched. */
  lemma {:induction false} PersistCovers(m: map<Id, MatchRow>, next: Id, jobId: Id, cands: seq<Candidate>)
    requires Persist(m, next, jobId, cands).Some?
    requires KeysBelow(m, next)
    ensures var st := Persist(m, next, jobId, cands).value;
      forall k :: 0 <= k < |cands| ==> MatchPairExists(st.matches, jobId, cands[k].professionalId)
  {
    if cands != [] {
      var init, last := cands[..|cands| - 1], cands[|cands| - 1];
      PersistCovers(m, next, jobId, init);
      var st0 := Persist(m, next, jobId, init).value;
      var st := Persist(m, next, jobId, cands).value;
      PersistGrows(m, next, jobId, init);
      assert st0.next !in st0.matches;
      forall k | 0 <= k < |cands| ensures MatchPairExists(st.matches, jobId, cands[k].professionalId) {
        if k < |init| {
          assert cands[k] == init[k];
          var id :| id in st0.matches && st0.matches[id].jobId == jobId &&
                    st0.matches[id].professionalId == init[k].professionalId;
          assert id in st.matches && st.matches[id] == st0.matches[id];
        } else if !MatchPairExists(st0.matches, jobId, last.professionalId) {
          assert st.matches[st0.next].professionalId == last.professionalId;
        }
      }
    }
  }

  /** When every pair is already matched the loop saves nothing. */
  lemma {:induction false} PersistNoop(m: map<Id, MatchRow>, next: Id, jobId: Id, cands: seq<Candidate>)
    requires forall k :: 0 <= k < |cands| ==> MatchPairExists(m, jobId, cands[k].professionalId)
    ensures Persist(m, next, jobId, cands) == Some(Saved(m, next, []))
  {
    if cands != [] {
      PersistNoop(m, next, jobId, cands[..|cands| - 1]);
    }
  }

  /**
   * A candidate that reaches the loop unmatched with a figure too wide for
   * its column, such as the `Double.MAX_VALUE` distance of a professional
   * without coordinates, fails the whole loop.
   */
  lemma {:induction false} PersistFailsOnOverflow(m: map<Id, MatchRow>, next: Id, jobId: Id,
                                                  cands: seq<Candidate>, k: nat)
    requires k < |cands| && !FitsColumns(cands[k].breakdown)
    requires !MatchPairExists(m, jobId, cands[k].professionalId)
    requires forall j :: 0 <= j < k ==> cands[j].professionalId != cands[k].professionalId
    requires KeysBelow(m, next)
    ensures Persist(m, next, jobId, cands).None?
  {
    var init := cands[..|cands| - 1];
    if k < |cands| - 1 {
      forall j | 0 <= j < k ensures init[j].professionalId != init[k].professionalId {
        assert init[j] == cands[j];
      }
      PersistFailsOnOverflow(m, next, jobId, init, k);
    } else if Persist(m, next, jobId, init).Some? {
      var st0 := Persist(m, next, jobId, init).value;
      PersistGrows(m, next, jobId, init);
      PersistOrigins(m, next, jobId, init);
      forall id | id in st0.matches
        ensures !(st0.matches[id].jobId == jobId && st0.matches[id].professionalId == cands[k].professionalId)
      {
        if id !in m {
          var i := id - next;
          assert st0.created[i].id == id;
          var j :| 0 <= j < |init| && st0.created[i].professionalId == init[j].professionalId &&
                   st0.created[i].matchScore == TotalOf(init[j]);
          assert init[j] == cands[j];
        }
      }
    }
  }

  /** A professional without coordinates is placed at `Double.MAX_VALUE` km: too far for the distance column. */
  lemma UnlocatedProfessionalOverflows(p: ProfessionalRow, job: JobRow, c: MatchCriteria, arc: Arc)
    requires p.latitude.None? || p.longitude.None?
    requires MatchScore(p, job, c, arc).Success?
    ensures !FitsColumns(MatchScore(p, job, c, arc).value)
  {
    assert DistanceTo(p, job, arc) == MAX_DOUBLE;
  }

  // ----------------------------------------------------------- ranking

  /**
   * The ranked list is a selection of the scored candidates, as long as the
   * cap allows, all of them when they fit under it, and the cap cuts only candidates scoring no higher
   * than every one it keeps.
   */
  lemma RankedFromScored(scored: seq<Candidate>, maxMatches: nat)
    ensures var ranked := Ranked(scored, maxMatches);
      |ranked| == if |scored| <= maxMatches then |scored| else maxMatches
    ensures var ranked := Ranked(scored, maxMatches);
      forall k :: 0 <= k < |ranked| ==> ranked[k] in scored
    ensures var ranked := Ranked(scored, maxMatches);
      forall x, k :: x in scored && x !in ranked && 0 <= k < |ranked| ==> TotalOf(x) <= TotalOf(ranked[k])
    ensures |scored| <= maxMatches ==> forall x :: x in scored ==> x in Ranked(scored, maxMatches)
  {
    var sorted := SortDesc(scored, TotalOf);
    SortDescCorrect(scored, TotalOf);
    var ranked := Ranked(scored, maxMatches);
    assert ranked == sorted[..|ranked|];
    forall k | 0 <= k < |ranked| ensures ranked[k] in scored {
      assert ranked[k] == sorted[k];
      assert sorted[k] in multiset(sorted);
    }
    forall x, k | x in scored && x !in ranked && 0 <= k < |ranked| ensures TotalOf(x) <= TotalOf(ranked[k]) {
      assert x in multiset(sorted);
      var j :| 0 <= j < |sorted| && sorted[j] == x;
      assert ranked[k] == sorted[k];
    }
    if |scored| <= maxMatches {
      assert ranked == sorted;
      forall x | x in scored ensures x in ranked {
        assert x in multiset(sorted);
      }
    }
  }

  /** Scoring reads the job's position, type, date and budget, never its status. */
  lemma {:induction false} ScoredIgnoresStatus(profs: map<Id, ProfessionalRow>, pool: seq<Id>, job: JobRow,
                                               s: JobStatus, c: MatchCriteria, arc: Arc)
    requires forall i :: 0 <= i < |pool| ==> pool[i] in profs
    ensures Scored(profs, pool, job.(status := s), c, arc) == Scored(profs, pool, job, c, arc)
  {
    if pool != [] {
      ScoredIgnoresStatus(profs, pool[..|pool| - 1], job, s, c, arc);
    }
  }

  // ---------------------------------------------------------------- a run

  /** A successful run passed every guard and is the conclusion of its ranked selection. */
  lemma RunConcludes(jobs: map<Id, JobRow>, profs: map<Id, ProfessionalRow>, nextProfessionalId: Id,
                     matches: map<Id, MatchRow>, nextMatchId: Id, req: MatchRequest, arc: Arc)
    requires FindMatchesSpec(jobs, profs, nextProfessionalId, matches, nextMatchId, req, arc).result.Success?
    ensures req.jobId in jobs && IsOpen(jobs[req.jobId].status) && CriteriaFor(req).maxMatches >= 0
    ensures FindMatchesSpec(jobs, profs, nextProfessionalId, matches, nextMatchId, req, arc) ==
            Conclude(jobs, req.jobId, matches, nextMatchId,
                     RankedFor(profs, nextProfessionalId, jobs[req.jobId], CriteriaFor(req), arc))
  {
  }

  /** Concluding a run keeps the match table's keys below its counter, its pairs unique and its old rows. */
  lemma ConcludeKeepsMatchTable(jobs: map<Id, JobRow>, jobId: Id, matches: map<Id, MatchRow>, nextMatchId: Id,
                                ranked: seq<Candidate>)
    requires jobId in jobs && KeysBelow(matches, nextMatchId) && MatchPairsUnique(matches)
    ensures var o := Conclude(jobs, jobId, matches, nextMatchId, ranked);
      KeysBelow(o.matches, o.nextMatchId) && MatchPairsUnique(o.matches) &&
      (forall id :: id in matches ==> id in o.matches && o.matches[id] == matches[id]) &&
      o.jobs.Keys == jobs.Keys
  {
    if Persist(matches, nextMatchId, jobId, ranked).Some? {
      PersistKeepsPairsUnique(matches, nextMatchId, jobId, ranked);
      PersistGrows(matches, nextMatchId, jobId, ranked);
    }
  }

  /** A run keeps the match table's keys below its counter and its pairs unique, and keeps every existing row. */
  lemma FindMatchesKeepsMatchTable(jobs: map<Id, JobRow>, profs: map<Id, ProfessionalRow>, nextProfessionalId: Id,
                                   matches: map<Id, MatchRow>, nextMatchId: Id, req: MatchRequest, arc: Arc)
    requires KeysBelow(matches, nextMatchId) && MatchPairsUnique(matches)
    ensures var o := FindMatchesSpec(jobs, profs, nextProfessionalId, matches, nextMatchId, req, arc);
      KeysBelow(o.matches, o.nextMatchId) && MatchPairsUnique(o.matches) &&
      (forall id :: id in matches ==> id in o.matches && o.matches[id] == matches[id]) &&
      o.jobs.Keys == jobs.Keys
  {
    if FindMatchesSpec(jobs, profs, nextProfessionalId, matches, nextMatchId, req, arc).result.Success? {
      RunConcludes(jobs, profs, nextProfessionalId, matches, nextMatchId, req, arc);
      ConcludeKeepsMatchTable(jobs, req.jobId, matches, nextMatchId,
                              RankedFor(profs, nextProfessionalId, jobs[req.jobId], CriteriaFor(req), arc));
    }
  }

  /**
   * The answer of a successful run: at most `maxMatches` new suggestions for
   * the job, each above the threshold, for a pool professional (a verified
   * one when the pool is verified-only) not matched to the job before, each
   * stored under a fresh id, and ranked from the best score down.
   */
  lemma FindMatchesAnswer(jobs: map<Id, JobRow>, profs: map<Id, ProfessionalRow>, nextProfessionalId: Id,
                          matches: map<Id, MatchRow>, nextMatchId: Id, req: MatchRequest, arc: Arc)
    requires KeysBelow(matches, nextMatchId) && MatchPairsUnique(matches)
    ensures var o := FindMatchesSpec(jobs, profs, nextProfessionalId, matches, nextMatchId, req, arc);
      var c := CriteriaFor(req);
      o.result.Success? ==>
        var vs := o.result.value;
        |vs| <= c.maxMatches &&
        (forall i, j :: 0 <= i < j < |vs| ==> vs[i].matchScore >= vs[j].matchScore) &&
        forall i :: 0 <= i < |vs| ==>
          vs[i].jobId == req.jobId && vs[i].status == Suggested &&
          vs[i].matchScore >= c.minimumMatchScore &&
          vs[i].id !in matches && vs[i].id in o.matches && o.matches[vs[i].id].status == Suggested &&
          !MatchPairExists(matches, req.jobId, vs[i].professionalId) &&
          vs[i].professionalId in profs && (c.verifiedOnly ==> profs[vs[i].professionalId].isVerified)
  {
    var c := CriteriaFor(req);
    if FindMatchesSpec(jobs, profs, nextProfessionalId, matches, nextMatchId, req, arc).result.Success? {
      RunConcludes(jobs, profs, nextProfessionalId, matches, nextMatchId, req, arc);
      var pool := Pool(profs, nextProfessionalId, c.verifiedOnly);
      var scored := Scored(profs, pool, jobs[req.jobId], c, arc);
      var ranked := Ranked(scored, c.maxMatches);
      assert ranked == RankedFor(profs, nextProfessionalId, jobs[req.jobId], c, arc);
      var o := Conclude(jobs, req.jobId, matches, nextMatchId, ranked);
      var st := Persist(matches, nextMatchId, req.jobId, ranked).value;
      assert o.result.value == st.created && o.matches == st.matches;
      RankedAnswer(matches, nextMatchId, req.jobId, profs, pool, scored, c);
    }
  }

  /** `FindMatchesAnswer` for the persisting loop over a ranked selection of a scored pool. */
  lemma RankedAnswer(matches: map<Id, MatchRow>, nextMatchId: Id, jobId: Id, profs: map<Id, ProfessionalRow>,
                     pool: seq<Id>, scored: seq<Candidate>, c: MatchCriteria)
    requires KeysBelow(matches, nextMatchId) && MatchPairsUnique(matches) && c.maxMatches >= 0
    requires forall i :: 0 <= i < |pool| ==> pool[i] in profs && (c.verifiedOnly ==> profs[pool[i]].isVerified)
    requires forall k :: 0 <= k < |scored| ==> scored[k].professionalId in pool && TotalOf(scored[k]) >= c.minimumMatchScore
    requires Persist(matches, nextMatchId, jobId, Ranked(scored, c.maxMatches)).Some?
    ensures var st := Persist(matches, nextMatchId, jobId, Ranked(scored, c.maxMatches)).value;
      var vs := st.created;
      |vs| <= c.maxMatches &&
      (forall i, j :: 0 <= i < j < |vs| ==> vs[i].matchScore >= vs[j].matchScore) &&
      forall i :: 0 <= i < |vs| ==>
        vs[i].jobId == jobId && vs[i].status == Suggested &&
        vs[i].matchScore >= c.minimumMatchScore &&
        vs[i].id !in matches && vs[i].id in st.matches && st.matches[vs[i].id].status == Suggested &&
        !MatchPairExists(matches, jobId, vs[i].professionalId) &&
        vs[i].professionalId in profs && (c.verifiedOnly ==> profs[vs[i].professionalId].isVerified)
  {
    var ranked := Ranked(scored, c.maxMatches);
    var st := Persist(matches, nextMatchId, jobId, ranked).value;
    var vs := st.created;
    RankedFromScored(scored, c.maxMatches);
    PersistGrows(matches, nextMatchId, jobId, ranked);
    PersistOrigins(matches, nextMatchId, jobId, ranked);
    PersistKeepsRank(matches, nextMatchId, jobId, ranked);
    PersistKeepsPairsUnique(matches, nextMatchId, jobId, ranked);
    forall i | 0 <= i < |vs|
      ensures vs[i].matchScore >= c.minimumMatchScore && vs[i].professionalId in profs &&
              (c.verifiedOnly ==> profs[vs[i].professionalId].isVerified)
    {
      var k :| 0 <= k < |ranked| && vs[i].professionalId == ranked[k].professionalId &&
               vs[i].matchScore == TotalOf(ranked[k]);
      assert ranked[k] in scored;
    }
  }

  /**
   * The completeness of a successful run: a pool professional that scores
   * and reaches the threshold ends up matched to the job (it was before, or
   * the run answers a new suggestion for it), unless the cap was reached by
   * `maxMatches` candidates scoring at least as high.
   */
  lemma FindMatchesComplete(jobs: map<Id, JobRow>, profs: map<Id, ProfessionalRow>, nextProfessionalId: Id,
                            matches: map<Id, MatchRow>, nextMatchId: Id, req: MatchRequest, arc: Arc, id: Id)
    requires KeysBelow(matches, nextMatchId)
    requires FindMatchesSpec(jobs, profs, nextProfessionalId, matches, nextMatchId, req, arc).result.Success?
    requires var c := CriteriaFor(req);
      id in profs && id < nextProfessionalId && (!c.verifiedOnly || profs[id].isVerified) &&
      Qualifies(profs[id], jobs[req.jobId], c, arc)
    ensures var o := FindMatchesSpec(jobs, profs, nextProfessionalId, matches, nextMatchId, req, arc);
      var c := CriteriaFor(req);
      var ranked := RankedFor(profs, nextProfessionalId, jobs[req.jobId], c, arc);
      MatchPairExists(matches, req.jobId, id) ||
      (exists i :: 0 <= i < |o.result.value| && o.result.value[i].professionalId == id) ||
      (|ranked| == c.maxMatches &&
       forall k :: 0 <= k < |ranked| ==> TotalOf(ranked[k]) >= MatchScore(profs[id], jobs[req.jobId], c, arc).value.totalScore)
  {
    RunConcludes(jobs, profs, nextProfessionalId, matches, nextMatchId, req, arc);
    var c := CriteriaFor(req);
    var job := jobs[req.jobId];
    var scored := Scored(profs, Pool(profs, nextProfessionalId, c.verifiedOnly), job, c, arc);
    var x := PoolKeeps(profs, nextProfessionalId, job, c, arc, id);
    ConcludedAnswer(jobs, req.jobId, matches, nextMatchId, Ranked(scored, c.maxMatches));
    RankedComplete(matches, nextMatchId, req.jobId, scored, c.maxMatches, x);
  }

  /** A qualifying professional of the pool is among the scored candidates, with its score. */
  lemma PoolKeeps(profs: map<Id, ProfessionalRow>, nextProfessionalId: Id, job: JobRow, c: MatchCriteria,
                  arc: Arc, id: Id) returns (x: Candidate)
    requires id in profs && id < nextProfessionalId && (!c.verifiedOnly || profs[id].isVerified)
    requires Qualifies(profs[id], job, c, arc)
    ensures x in Scored(profs, Pool(profs, nextProfessionalId, c.verifiedOnly), job, c, arc)
    ensures x.professionalId == id && TotalOf(x) == MatchScore(profs[id], job, c, arc).value.totalScore
  {
    var pool := Pool(profs, nextProfessionalId, c.verifiedOnly);
    var scored := Scored(profs, pool, job, c, arc);
    ScoredComplete(profs, pool, job, c, arc, id);
    var k :| 0 <= k < |scored| && scored[k].professionalId == id;
    x := scored[k];
  }

  /** The answer of a successful conclusion is what the persisting loop created. */
  lemma ConcludedAnswer(jobs: map<Id, JobRow>, jobId: Id, matches: map<Id, MatchRow>, nextMatchId: Id,
                        ranked: seq<Candidate>)
    requires jobId in jobs && Conclude(jobs, jobId, matches, nextMatchId, ranked).result.Success?
    ensures Persist(matches, nextMatchId, jobId, ranked).Some?
    ensures Conclude(jobs, jobId, matches, nextMatchId, ranked).result.value ==
            Persist(matches, nextMatchId, jobId, ranked).value.created
  {
  }

  /** `FindMatchesComplete` for the persisting loop over a ranked selection of scored candidates. */
  lemma RankedComplete(matches: map<Id, MatchRow>, nextMatchId: Id, jobId: Id, scored: seq<Candidate>,
                       maxMatches: nat, x: Candidate)
    requires KeysBelow(matches, nextMatchId) && x in scored
    requires Persist(matches, nextMatchId, jobId, Ranked(scored, maxMatches)).Some?
    ensures var ranked := Ranked(scored, maxMatches);
      var vs := Persist(matches, nextMatchId, jobId, ranked).value.created;
      MatchPairExists(matches, jobId, x.professionalId) ||
      (exists i :: 0 <= i < |vs| && vs[i].professionalId == x.professionalId) ||
      (|ranked| == maxMatches && forall k :: 0 <= k < |ranked| ==> TotalOf(ranked[k]) >= TotalOf(x))
  {
    var ranked := Ranked(scored, maxMatches);
    var st := Persist(matches, nextMatchId, jobId, ranked).value;
    RankedFromScored(scored, maxMatches);
    if x in ranked && !MatchPairExists(matches, jobId, x.professionalId) {
      PersistCovers(matches, nextMatchId, jobId, ranked);
      PersistGrows(matches, nextMatchId, jobId, ranked);
      var j :| 0 <= j < |ranked| && ranked[j] == x;
      var r :| r in st.matches && st.matches[r].jobId == jobId && st.matches[r].professionalId == x.professionalId;
      assert r !in matches;
      var i := r - nextMatchId;
      assert st.created[i].id == r;
      assert st.created[i].professionalId == x.professionalId;
    }
  }

  /**
   * A successful run touches only the requested job, and only its status: a
   * PENDING job becomes MATCHED exactly when the run created a match, and a
   * MATCHED job stays so.
   */
  lemma FindMatchesJobStatus(jobs: map<Id, JobRow>, profs: map<Id, ProfessionalRow>, nextProfessionalId: Id,
                             matches: map<Id, MatchRow>, nextMatchId: Id, req: MatchRequest, arc: Arc)
    ensures var o := FindMatchesSpec(jobs, profs, nextProfessionalId, matches, nextMatchId, req, arc);
      o.result.Success? ==>
        req.jobId in jobs && IsOpen(jobs[req.jobId].status) && req.jobId in o.jobs &&
        (forall id :: id in jobs && id != req.jobId ==> id in o.jobs && o.jobs[id] == jobs[id]) &&
        o.jobs[req.jobId] == jobs[req.jobId].(status := o.jobs[req.jobId].status) &&
        (o.jobs[req.jobId].status == Matched <==> jobs[req.jobId].status == Matched || o.result.value != []) &&
        (o.jobs[req.jobId].status == Pending <==> jobs[req.jobId].status == Pending && o.result.value == [])
  {
    if FindMatchesSpec(jobs, profs, nextProfessionalId, matches, nextMatchId, req, arc).result.Success? {
      RunConcludes(jobs, profs, nextProfessionalId, matches, nextMatchId, req, arc);
    }
  }

  /** Running the same request again right after a successful run finds nothing new and changes nothing. */
  lemma FindMatchesIdempotent(jobs: map<Id, JobRow>, profs: map<Id, ProfessionalRow>, nextProfessionalId: Id,
                              matches: map<Id, MatchRow>, nextMatchId: Id, req: MatchRequest, arc: Arc)
    requires KeysBelow(matches, nextMatchId)
    requires FindMatchesSpec(jobs, profs, nextProfessionalId, matches, nextMatchId, req, arc).result.Success?
    ensures var o := FindMatchesSpec(jobs, profs, nextProfessionalId, matches, nextMatchId, req, arc);
      FindMatchesSpec(o.jobs, profs, nextProfessionalId, o.matches, o.nextMatchId, req, arc) ==
        Outcome(Success([]), o.jobs, o.matches, o.nextMatchId)
  {
    RunConcludes(jobs, profs, nextProfessionalId, matches, nextMatchId, req, arc);
    var c := CriteriaFor(req);
    var ranked := RankedFor(profs, nextProfessionalId, jobs[req.jobId], c, arc);
    RerunRanksAlike(jobs, profs, nextProfessionalId, matches, nextMatchId, req, arc);
    ConcludeAgain(jobs, req.jobId, matches, nextMatchId, ranked);
  }

  /** A second run after a successful one passes the same guards and ranks the same candidates. */
  lemma RerunRanksAlike(jobs: map<Id, JobRow>, profs: map<Id, ProfessionalRow>, nextProfessionalId: Id,
                        matches: map<Id, MatchRow>, nextMatchId: Id, req: MatchRequest, arc: Arc)
    requires req.jobId in jobs && IsOpen(jobs[req.jobId].status) && CriteriaFor(req).maxMatches >= 0
    requires var o := Conclude(jobs, req.jobId, matches, nextMatchId,
                               RankedFor(profs, nextProfessionalId, jobs[req.jobId], CriteriaFor(req), arc));
      o.result.Success?
    ensures var ranked := RankedFor(profs, nextProfessionalId, jobs[req.jobId], CriteriaFor(req), arc);
      var o := Conclude(jobs, req.jobId, matches, nextMatchId, ranked);
      FindMatchesSpec(o.jobs, profs, nextProfessionalId, o.matches, o.nextMatchId, req, arc) ==
        Conclude(o.jobs, req.jobId, o.matches, o.nextMatchId, ranked)
  {
    var job := jobs[req.jobId];
    var c := CriteriaFor(req);
    var ranked := RankedFor(profs, nextProfessionalId, job, c, arc);
    var o := Conclude(jobs, req.jobId, matches, nextMatchId, ranked);
    var job' := o.jobs[req.jobId];
    assert job' == job.(status := job'.status) && IsOpen(job'.status);
    ScoredIgnoresStatus(profs, Pool(profs, nextProfessionalId, c.verifiedOnly), job, job'.status, c, arc);
    assert RankedFor(profs, nextProfessionalId, job', c, arc) == ranked;
  }

  /** Concluding the same candidates again right after a successful conclusion saves nothing and changes nothing. */
  lemma ConcludeAgain(jobs: map<Id, JobRow>, jobId: Id, matches: map<Id, MatchRow>, nextMatchId: Id,
                      ranked: seq<Candidate>)
    requires jobId in jobs && KeysBelow(matches, nextMatchId)
    requires Conclude(jobs, jobId, matches, nextMatchId, ranked).result.Success?
    ensures var o := Conclude(jobs, jobId, matches, nextMatchId, ranked);
      Conclude(o.jobs, jobId, o.matches, o.nextMatchId, ranked) == Outcome(Success([]), o.jobs, o.matches, o.nextMatchId)
  {
    var o := Conclude(jobs, jobId, matches, nextMatchId, ranked);
    PersistCovers(matches, nextMatchId, jobId, ranked);
    PersistNoop(o.matches, o.nextMatchId, jobId, ranked);
    var job' := o.jobs[jobId];
    assert o.jobs[jobId := job'.(status := StatusAfterRun(job'.status, []))] == o.jobs;
  }

  // --------------------------------------------------------- overflow

  /**
   * A run whose ranked list holds an unlocated professional not yet matched
   * to the job fails and rolls back, whatever else it would have saved.
   */
  lemma UnlocatedCandidateFailsRun(jobs: map<Id, JobRow>, profs: map<Id, ProfessionalRow>, nextProfessionalId: Id,
                                   matches: map<Id, MatchRow>, nextMatchId: Id, req: MatchRequest, arc: Arc, k: nat)
    requires KeysBelow(matches, nextMatchId)
    requires req.jobId in jobs && IsOpen(jobs[req.jobId].status) && CriteriaFor(req).maxMatches >= 0
    requires var c := CriteriaFor(req);
      var ranked := Ranked(Scored(profs, Pool(profs, nextProfessionalId, c.verifiedOnly), jobs[req.jobId], c, arc),
                           c.maxMatches);
      k < |ranked| && ranked[k].professionalId in profs &&
      (profs[ranked[k].professionalId].latitude.None? || profs[ranked[k].professionalId].longitude.None?) &&
      !MatchPairExists(matches, req.jobId, ranked[k].professionalId) &&
      forall j :: 0 <= j < k ==> ranked[j].professionalId != ranked[k].professionalId
    ensures var o := FindMatchesSpec(jobs, profs, nextProfessionalId, matches, nextMatchId, req, arc);
      o.result.Failure? && o.jobs == jobs && o.matches == matches && o.nextMatchId == nextMatchId
  {
    var c := CriteriaFor(req);
    var job := jobs[req.jobId];
    var ranked := RankedFor(profs, nextProfessionalId, job, c, arc);
    UnlocatedRankedOverflows(profs, Pool(profs, nextProfessionalId, c.verifiedOnly), job, c, arc, k);
    PersistFailsOnOverflow(matches, nextMatchId, req.jobId, ranked, k);
    assert Conclude(jobs, req.jobId, matches, nextMatchId, ranked).result.Failure?;
  }

  /** An unlocated professional among the ranked candidates carries a figure too wide for its column. */
  lemma UnlocatedRankedOverflows(profs: map<Id, ProfessionalRow>, pool: seq<Id>, job: JobRow, c: MatchCriteria,
                                 arc: Arc, k: nat)
    requires forall i :: 0 <= i < |pool| ==> pool[i] in profs
    requires c.maxMatches >= 0
    requires var ranked := Ranked(Scored(profs, pool, job, c, arc), c.maxMatches);
      k < |ranked| && ranked[k].professionalId in profs &&
      (profs[ranked[k].professionalId].latitude.None? || profs[ranked[k].professionalId].longitude.None?)
    ensures !FitsColumns(Ranked(Scored(profs, pool, job, c, arc), c.maxMatches)[k].breakdown)
  {
    var scored := Scored(profs, pool, job, c, arc);
    var ranked := Ranked(scored, c.maxMatches);
    RankedFromScored(scored, c.maxMatches);
    assert ranked[k] in scored;
    var p := profs[ranked[k].professionalId];
    assert MatchScore(p, job, c, arc) == Success(ranked[k].breakdown);
    UnlocatedProfessionalOverflows(p, job, c, arc);
  }

  // ----------------------------------------------------------- read back

  /**
   * A saved match read back differs from the view the run returned only in
   * its distance score, derived as 100 - 2 * distanceKm, and in the missing
   * reasons.
   */
  lemma ReadBackOfSaved(id: Id, jobId: Id, cand: Candidate)
    ensures var row := NewMatchRow(jobId, cand);
      var b := cand.breakdown;
      ReadBack(id, row) == ViewWithBreakdown(id, row, b).(distanceScore := 100.0 - b.distanceKm * 2.0, reasons := None)
  {
  }

  /**
   * For a professional within 10 km and within the radius the engine's
   * distance score is 100, but reading the saved match back reports less.
   */
  lemma ReadBackUnderratesNearby(id: Id, jobId: Id, p: ProfessionalRow, job: JobRow, c: MatchCriteria, arc: Arc)
    requires p.serviceRadiusKm.Some? && p.serviceRadiusKm.value >= 10
    requires 0.01 <= DistanceTo(p, job, arc) <= 10.0
    ensures MatchScore(p, job, c, arc).Success?
    ensures var b := MatchScore(p, job, c, arc).value;
      b.distanceScore == 100.0 &&
      ReadBack(id, NewMatchRow(jobId, Candidate(id, b))).distanceScore < 100.0
  {
    var d := DistanceTo(p, job, arc);
    assert DistanceScore(d, p.serviceRadiusKm.value) == 100.0;
    assert Numbers.IsCents(100.0);
    Numbers.Round2Exact(100.0);
    var b := MatchScore(p, job, c, arc).value;
    assert b.distanceKm == Numbers.Round2(d) && b.distanceScore == Numbers.Round2(100.0);
  }

  /** Beyond 50 km the read-back distance score is negative, which the engine never produces. */
  lemma ReadBackNegativeFar(id: Id, jobId: Id, p: ProfessionalRow, job: JobRow, c: MatchCriteria, arc: Arc)
    requires MatchScore(p, job, c, arc).Success?
    requires DistanceTo(p, job, arc) > 50.01
    ensures var b := MatchScore(p, job, c, arc).value;
      b.distanceScore >= 0.0 &&
      ReadBack(id, NewMatchRow(jobId, Candidate(id, b))).distanceScore < 0.0
  {
    MatchScoreBounds(p, job, c, arc);
  }
}
