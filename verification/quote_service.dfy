/**
 * QuoteService: a professional's quote for a job, the comparison of a job's
 * quotes, and the quote lifecycle: a pending quote is accepted (which rejects
 * the job's other pending quotes) or rejected, and any quote may be deleted.
 */
module QuoteService {
  import opened Wrappers
  import opened Numbers
  import opened ValidationUtils
  import opened Domain
  import opened Ranking
  import opened Store

  /** `CreateQuoteRequest`; the amount is required by the request's own validation. */
  datatype CreateQuoteRequest = CreateQuoteRequest(
    jobId: Id,
    professionalId: Id,
    matchId: Option<Id>,
    amount: real,
    estimatedHours: Option<int>,
    materialsCost: Option<real>,
    laborCost: Option<real>,
    details: Option<string>,
    validUntil: Option<int>)

  /** `QuoteDto`: a stored quote and its id. */
  datatype QuoteView = QuoteView(id: Id, quote: QuoteRow)

  // -------------------------------------------------------------- create

  /** Why `createQuote` refuses a request, in the order it checks; `None` when it accepts it. */
  function CreateQuoteError(jobs: map<Id, JobRow>, profs: map<Id, ProfessionalRow>, matches: map<Id, MatchRow>,
                            quotes: map<Id, QuoteRow>, req: CreateQuoteRequest): (err: Option<Error>)
    ensures err.None? <==>
      req.jobId in jobs && req.professionalId in profs && !QuotePairExists(quotes, req.jobId, req.professionalId) &&
      (req.matchId.Some? ==> req.matchId.value in matches)
  {
    if req.jobId !in jobs then Some(NotFound("Job"))
    else if req.professionalId !in profs then Some(NotFound("Professional"))
    else if QuotePairExists(quotes, req.jobId, req.professionalId) then
      Some(Invalid("Quote already exists for this job and professional"))
    else if req.matchId.Some? && req.matchId.value !in matches then Some(NotFound("Match"))
    else None
  }

  /** The quote `createQuote` stores: pending, with the details trimmed and every other field as given. */
  function NewQuote(req: CreateQuoteRequest): (q: QuoteRow)
    ensures q.status == QuotePending
    ensures q.jobId == req.jobId && q.professionalId == req.professionalId && q.matchId == req.matchId &&
            q.amount == req.amount
    ensures q.details.Some? <==> req.details.Some?
    ensures q.details.Some? ==> Trim(q.details.value) == q.details.value
  {
    SanitizeIdempotent(req.details);
    QuoteRow(req.jobId, req.professionalId, req.matchId, req.amount, req.estimatedHours,
             req.materialsCost, req.laborCost, Sanitize(req.details), req.validUntil, QuotePending)
  }

  /**
   * `createQuote`: stores a new pending quote under the next id. A cost
   * breakdown that does not add up to the amount is only logged.
   */
  method CreateQuote(db: Database, req: CreateQuoteRequest) returns (r: Result<QuoteView>)
    requires db.Valid()
    modifies db`quotes, db`nextQuoteId
    ensures db.Valid()
    ensures var err := CreateQuoteError(old(db.jobs), old(db.professionals), old(db.matches), old(db.quotes), req);
      err.Some? ==> r == Failure(err.value) && db.quotes == old(db.quotes) && db.nextQuoteId == old(db.nextQuoteId)
    ensures CreateQuoteError(old(db.jobs), old(db.professionals), old(db.matches), old(db.quotes), req).None? ==>
      db.quotes == old(db.quotes)[old(db.nextQuoteId) := NewQuote(req)] &&
      db.nextQuoteId == old(db.nextQuoteId) + 1 &&
      r == Success(QuoteView(old(db.nextQuoteId), NewQuote(req)))
  {
    if req.jobId !in db.jobs {
      return Failure(NotFound("Job"));
    }
    if req.professionalId !in db.professionals {
      return Failure(NotFound("Professional"));
    }
    if QuotePairExists(db.quotes, req.jobId, req.professionalId) {
      return Failure(Invalid("Quote already exists for this job and professional"));
    }
    if req.matchId.Some? && req.matchId.value !in db.matches {
      return Failure(NotFound("Match"));
    }
    var quote := NewQuote(req);
    var id := db.nextQuoteId;
    db.quotes := db.quotes[id := quote];
    db.nextQuoteId := id + 1;
    r := Success(QuoteView(id, quote));
  }

  /** Once a quote is stored, a second one for the same job and professional is refused as a duplicate. */
  lemma SecondQuoteRefused(jobs: map<Id, JobRow>, profs: map<Id, ProfessionalRow>, matches: map<Id, MatchRow>,
                           quotes: map<Id, QuoteRow>, next: Id, req: CreateQuoteRequest, again: CreateQuoteRequest)
    requires CreateQuoteError(jobs, profs, matches, quotes, req).None?
    requires again.jobId == req.jobId && again.professionalId == req.professionalId
    ensures CreateQuoteError(jobs, profs, matches, quotes[next := NewQuote(req)], again) ==
            Some(Invalid("Quote already exists for this job and professional"))
  {
    var quotes' := quotes[next := NewQuote(req)];
    assert quotes'[next].jobId == again.jobId && quotes'[next].professionalId == again.professionalId;
  }

  /** Whether a request is accepted never depends on its costs or on whether they add up to the amount. */
  lemma CostsDoNotMatter(jobs: map<Id, JobRow>, profs: map<Id, ProfessionalRow>, matches: map<Id, MatchRow>,
                         quotes: map<Id, QuoteRow>, req: CreateQuoteRequest,
                         amount: real, materialsCost: Option<real>, laborCost: Option<real>)
    ensures CreateQuoteError(jobs, profs, matches, quotes,
                             req.(amount := amount, materialsCost := materialsCost, laborCost := laborCost)) ==
            CreateQuoteError(jobs, profs, matches, quotes, req)
  {
  }

  // ------------------------------------------------------------- queries

  /** `getQuoteById`. */
  function GetQuoteById(quotes: map<Id, QuoteRow>, id: Id): (r: Result<QuoteView>)
    ensures id !in quotes <==> r == Failure(NotFound("Quote"))
    ensures r.Success? ==> r.value.id == id && r.value.quote == quotes[id]
  {
    if id !in quotes then Failure(NotFound("Quote")) else Success(QuoteView(id, quotes[id]))
  }

  /** The ids' quotes, in the ids' order. */
  function Views(quotes: map<Id, QuoteRow>, ids: seq<Id>): (vs: seq<QuoteView>)
    requires forall i :: 0 <= i < |ids| ==> ids[i] in quotes
    ensures |vs| == |ids|
    ensures forall i :: 0 <= i < |ids| ==> vs[i] == QuoteView(ids[i], quotes[ids[i]])
  {
    seq(|ids|, i requires 0 <= i < |ids| => QuoteView(ids[i], quotes[ids[i]]))
  }

  /** The filter of `findByJobId`. */
  function OfJob(jobId: Id): QuoteRow -> bool {
    (q: QuoteRow) => q.jobId == jobId
  }

  /** The order of `findByJobIdOrderByAmountAsc`, as a descending key: the negated amount. */
  function ByAmount(quotes: map<Id, QuoteRow>): Id -> real {
    (id: Id) => if id in quotes then -quotes[id].amount else 0.0
  }

  /** `findByJobIdOrderByAmountAsc`: the job's quotes, cheapest first; equal amounts keep id order. */
  function JobQuoteIds(quotes: map<Id, QuoteRow>, next: Id, jobId: Id): (ids: seq<Id>)
    ensures forall id :: id in ids <==> id in quotes && id < next && quotes[id].jobId == jobId
  {
    SelectedQuotes(quotes, next, jobId);
    SortDescSameElements(Select(quotes, next, OfJob(jobId)), ByAmount(quotes));
    SortDesc(Select(quotes, next, OfJob(jobId)), ByAmount(quotes))
  }

  lemma SelectedQuotes(quotes: map<Id, QuoteRow>, next: Id, jobId: Id)
    ensures var selected := Select(quotes, next, OfJob(jobId));
      Distinct(selected) &&
      (forall id :: id in selected <==> id in quotes && id < next && quotes[id].jobId == jobId)
  {
  }

  lemma JobQuoteIdsOrdered(quotes: map<Id, QuoteRow>, next: Id, jobId: Id)
    ensures var ids := JobQuoteIds(quotes, next, jobId);
      forall i, j :: 0 <= i < j < |ids| && ids[i] in quotes && ids[j] in quotes ==>
        quotes[ids[i]].amount <= quotes[ids[j]].amount
  {
    SortDescCorrect(Select(quotes, next, OfJob(jobId)), ByAmount(quotes));
  }

  /** The job's quote query returns each of its quotes exactly once, cheapest first. */
  lemma JobQuoteIdsCorrect(quotes: map<Id, QuoteRow>, next: Id, jobId: Id)
    ensures var ids := JobQuoteIds(quotes, next, jobId);
      Distinct(ids) &&
      (forall i :: 0 <= i < |ids| ==> ids[i] in quotes && quotes[ids[i]].jobId == jobId) &&
      (forall id :: id in quotes && id < next && quotes[id].jobId == jobId ==> id in ids) &&
      (forall i, j :: 0 <= i < j < |ids| ==> quotes[ids[i]].amount <= quotes[ids[j]].amount)
  {
    var selected := Select(quotes, next, OfJob(jobId));
    SelectedQuotes(quotes, next, jobId);
    SortDescSameElements(selected, ByAmount(quotes));
    SortDescDistinct(selected, ByAmount(quotes));
    JobQuoteIdsOrdered(quotes, next, jobId);
  }

  /** `getQuotesByJobId`: not found for an unknown job, else every quote of the job, cheapest first. */
  function GetQuotesByJobId(jobs: map<Id, JobRow>, quotes: map<Id, QuoteRow>, next: Id, jobId: Id)
    : (r: Result<seq<QuoteView>>)
    ensures jobId !in jobs <==> r.Failure?
    ensures r.Success? ==>
      (forall i :: 0 <= i < |r.value| ==> r.value[i].id in quotes && r.value[i].quote == quotes[r.value[i].id] &&
                                          r.value[i].quote.jobId == jobId) &&
      (forall i, j :: 0 <= i < j < |r.value| ==> r.value[i].quote.amount <= r.value[j].quote.amount) &&
      (forall id :: id in quotes && id < next && quotes[id].jobId == jobId ==>
                    exists i :: 0 <= i < |r.value| && r.value[i].id == id)
  {
    if jobId !in jobs then Failure(NotFound("Job"))
    else
      var ids := JobQuoteIds(quotes, next, jobId);
      JobQuoteIdsCorrect(quotes, next, jobId);
      var vs := Views(quotes, ids);
      assert forall id :: id in ids ==> exists i :: 0 <= i < |vs| && vs[i].id == id;
      Success(vs)
  }

  /** `getQuotesByProfessionalId`: not found for an unknown professional, else its quotes in id order. */
  function GetQuotesByProfessionalId(profs: map<Id, ProfessionalRow>, quotes: map<Id, QuoteRow>, next: Id,
                                     professionalId: Id): (r: Result<seq<QuoteView>>)
    ensures professionalId !in profs <==> r.Failure?
    ensures r.Success? ==>
      (forall i :: 0 <= i < |r.value| ==> r.value[i].id in quotes && r.value[i].quote == quotes[r.value[i].id] &&
                                          r.value[i].quote.professionalId == professionalId) &&
      (forall i, j :: 0 <= i < j < |r.value| ==> r.value[i].id < r.value[j].id) &&
      (forall id :: id in quotes && id < next && quotes[id].professionalId == professionalId ==>
                    exists i :: 0 <= i < |r.value| && r.value[i].id == id)
  {
    if professionalId !in profs then Failure(NotFound("Professional"))
    else
      var ids := Select(quotes, next, (q: QuoteRow) => q.professionalId == professionalId);
      var vs := Views(quotes, ids);
      assert forall id :: id in ids ==> exists i :: 0 <= i < |vs| && vs[i].id == id;
      Success(vs)
  }

  // ------------------------------------------------------------- compare

  /** The amounts of the ids' quotes. */
  function Amounts(quotes: map<Id, QuoteRow>, ids: seq<Id>): (a: seq<real>)
    requires forall i :: 0 <= i < |ids| ==> ids[i] in quotes
    ensures |a| == |ids|
    ensures forall i :: 0 <= i < |ids| ==> a[i] == quotes[ids[i]].amount
  {
    seq(|ids|, i requires 0 <= i < |ids| => quotes[ids[i]].amount)
  }

  /** `min(BigDecimal::compareTo)`. */
  function Lowest(s: seq<real>): (m: real)
    requires s != []
    ensures m in s
    ensures forall i :: 0 <= i < |s| ==> m <= s[i]
  {
    if |s| == 1 then s[0] else Min(Lowest(s[..|s| - 1]), s[|s| - 1])
  }

  /** `max(BigDecimal::compareTo)`. */
  function Highest(s: seq<real>): (m: real)
    requires s != []
    ensures m in s
    ensures forall i :: 0 <= i < |s| ==> s[i] <= m
  {
    if |s| == 1 then s[0] else Max(Highest(s[..|s| - 1]), s[|s| - 1])
  }

  /** `reduce(BigDecimal.ZERO, BigDecimal::add)`. */
  function Sum(s: seq<real>): (r: real)
    ensures |s| == 1 ==> r == s[0]
  {
    if s == [] then 0.0 else Sum(s[..|s| - 1]) + s[|s| - 1]
  }

  /** The sum of `n` values lies between `n` times their least and `n` times their greatest. */
  lemma {:induction false} SumBetween(s: seq<real>, lo: real, hi: real)
    requires forall i :: 0 <= i < |s| ==> lo <= s[i] <= hi
    ensures |s| as real * lo <= Sum(s) <= |s| as real * hi
  {
    if s != [] {
      var init := s[..|s| - 1];
      SumBetween(init, lo, hi);
      assert Sum(s) == Sum(init) + s[|s| - 1];
      StepBetween(Sum(init), s[|s| - 1], |init| as real, lo, hi);
    }
  }

  /** Adding one more value between the bounds adds one more bound to each side. */
  lemma StepBetween(total: real, x: real, n: real, lo: real, hi: real)
    requires n * lo <= total <= n * hi && lo <= x <= hi
    ensures (n + 1.0) * lo <= total + x <= (n + 1.0) * hi
  {
  }

  /** A mean between two amounts stays between them once rounded, when the amounts are whole cents. */
  lemma AverageBetween(mean: real, lo: real, hi: real)
    requires lo <= mean <= hi
    ensures lo - 0.005 <= Round2(mean) <= hi + 0.005
    ensures IsCents(lo) && IsCents(hi) ==> lo <= Round2(mean) <= hi
  {
    if IsCents(lo) && IsCents(hi) {
      Round2Within(mean, lo, hi);
    }
  }

  /** `QuoteComparisonDto`, without the quotes' contact fields. */
  datatype Comparison = Comparison(
    jobId: Id,
    jobTitle: Option<string>,
    quotes: seq<QuoteView>,
    lowestAmount: real,
    highestAmount: real,
    averageAmount: real,
    totalQuotes: nat)

  /**
   * `compareQuotes`: the job's quotes with their lowest, highest and average
   * amount, the average being the sum divided by the count at two decimals,
   * half up. A job without quotes is not found.
   */
  function CompareQuotes(jobs: map<Id, JobRow>, quotes: map<Id, QuoteRow>, next: Id, jobId: Id)
    : (r: Result<Comparison>)
    ensures jobId !in jobs ==> r == Failure(NotFound("Job"))
    ensures jobId in jobs && Select(quotes, next, OfJob(jobId)) == [] ==> r == Failure(NotFound("Quote"))
    ensures r.Success? ==> r.value.jobId == jobId && r.value.totalQuotes == |r.value.quotes| > 0
    ensures jobId in jobs && Select(quotes, next, OfJob(jobId)) != [] ==> r.Success?
  {
    if jobId !in jobs then Failure(NotFound("Job"))
    else
      var ids := Select(quotes, next, OfJob(jobId));
      if ids == [] then Failure(NotFound("Quote"))
      else
        var amounts := Amounts(quotes, ids);
        var average := Round2(Sum(amounts) / |ids| as real);
        Success(Comparison(jobId, jobs[jobId].title, Views(quotes, ids), Lowest(amounts), Highest(amounts),
                           average, |ids|))
  }

  /**
   * A comparison lists exactly the job's quotes; its lowest and highest are
   * the least and greatest of their amounts, its average is their sum over
   * their count at two decimals, half up, and that rounded average lies
   * between them (within half a cent, and exactly when both are whole cents).
   */
  lemma CompareQuotesCorrect(jobs: map<Id, JobRow>, quotes: map<Id, QuoteRow>, next: Id, jobId: Id)
    ensures var r := CompareQuotes(jobs, quotes, next, jobId);
      r.Success? ==>
        var c := r.value;
        var ids := Select(quotes, next, OfJob(jobId));
        c.quotes == Views(quotes, ids) && c.totalQuotes == |ids| &&
        c.averageAmount == Round2(Sum(Amounts(quotes, ids)) / |ids| as real) &&
        (forall i :: 0 <= i < |ids| ==> c.lowestAmount <= quotes[ids[i]].amount <= c.highestAmount) &&
        (exists i :: 0 <= i < |ids| && c.lowestAmount == quotes[ids[i]].amount) &&
        (exists i :: 0 <= i < |ids| && c.highestAmount == quotes[ids[i]].amount) &&
        c.lowestAmount - 0.005 <= c.averageAmount <= c.highestAmount + 0.005 &&
        (IsCents(c.lowestAmount) && IsCents(c.highestAmount) ==> c.lowestAmount <= c.averageAmount <= c.highestAmount)
  {
    var r := CompareQuotes(jobs, quotes, next, jobId);
    if r.Success? {
      var ids := Select(quotes, next, OfJob(jobId));
      var amounts := Amounts(quotes, ids);
      assert r.value == Comparison(jobId, jobs[jobId].title, Views(quotes, ids), Lowest(amounts), Highest(amounts),
                                   Round2(Sum(amounts) / |ids| as real), |ids|);
      SummaryBounds(quotes, ids);
    }
  }

  /** The lowest, highest and rounded average amount of a non-empty selection of quotes, bounded by its amounts. */
  lemma SummaryBounds(quotes: map<Id, QuoteRow>, ids: seq<Id>)
    requires ids != [] && forall i :: 0 <= i < |ids| ==> ids[i] in quotes
    ensures var amounts := Amounts(quotes, ids);
      var lowest, highest := Lowest(amounts), Highest(amounts);
      var average := Round2(Sum(amounts) / |ids| as real);
      (forall i :: 0 <= i < |ids| ==> lowest <= quotes[ids[i]].amount <= highest) &&
      (exists i :: 0 <= i < |ids| && lowest == quotes[ids[i]].amount) &&
      (exists i :: 0 <= i < |ids| && highest == quotes[ids[i]].amount) &&
      lowest - 0.005 <= average <= highest + 0.005 &&
      (IsCents(lowest) && IsCents(highest) ==> lowest <= average <= highest)
  {
    var amounts := Amounts(quotes, ids);
    var lowest, highest := Lowest(amounts), Highest(amounts);
    var mean := Sum(amounts) / |ids| as real;
    MeanBetween(amounts, lowest, highest);
    AverageBetween(mean, lowest, highest);
    var i :| 0 <= i < |amounts| && amounts[i] == lowest;
    var j :| 0 <= j < |amounts| && amounts[j] == highest;
    assert quotes[ids[i]].amount == lowest && quotes[ids[j]].amount == highest;
  }

  /** The mean of values between two bounds lies between them. */
  lemma MeanBetween(s: seq<real>, lo: real, hi: real)
    requires s != [] && forall i :: 0 <= i < |s| ==> lo <= s[i] <= hi
    ensures lo <= Sum(s) / |s| as real <= hi
  {
    SumBetween(s, lo, hi);
    DivBetween(Sum(s), |s| as real, lo, hi);
  }

  /** A total between `n` times two bounds, divided by `n`, lies between them. */
  lemma DivBetween(total: real, n: real, lo: real, hi: real)
    requires n > 0.0 && n * lo <= total <= n * hi
    ensures lo <= total / n <= hi
  {
  }

  // ----------------------------------------------------------- lifecycle

  /** The filter of `findByJobIdAndStatus(jobId, PENDING)`. */
  function PendingOf(jobId: Id): QuoteRow -> bool {
    (q: QuoteRow) => q.jobId == jobId && q.status == QuotePending
  }

  /**
   * The quote table after `quoteId` is accepted: that quote is accepted, the
   * other pending quotes of its job are rejected, and every other quote is
   * as it was.
   */
  function AfterAccept(quotes: map<Id, QuoteRow>, quoteId: Id): (r: map<Id, QuoteRow>)
    requires quoteId in quotes
    ensures r.Keys == quotes.Keys && r[quoteId].status == QuoteAccepted
    ensures forall id :: id in quotes ==> r[id] == quotes[id].(status := r[id].status)
    ensures forall id :: id in r && id != quoteId && r[id].status != quotes[id].status ==>
      quotes[id].status == QuotePending && r[id].status == QuoteRejected && r[id].jobId == quotes[quoteId].jobId
  {
    var jobId := quotes[quoteId].jobId;
    map id | id in quotes ::
      if id == quoteId then quotes[id].(status := QuoteAccepted)
      else if quotes[id].jobId == jobId && quotes[id].status == QuotePending then quotes[id].(status := QuoteRejected)
      else quotes[id]
  }

  /**
   * Accepting a pending quote settles its job: no quote of the job is left
   * pending, only statuses change, quotes of other jobs and quotes that were
   * not pending are untouched, and an earlier acceptance stands.
   */
  lemma AcceptSettlesJob(quotes: map<Id, QuoteRow>, quoteId: Id)
    requires quoteId in quotes && quotes[quoteId].status == QuotePending
    ensures var r := AfterAccept(quotes, quoteId);
      var jobId := quotes[quoteId].jobId;
      r.Keys == quotes.Keys && r[quoteId].status == QuoteAccepted &&
      (forall id :: id in r && r[id].jobId == jobId ==> r[id].status != QuotePending) &&
      (forall id :: id in quotes ==> r[id] == quotes[id].(status := r[id].status)) &&
      (forall id :: id in quotes && quotes[id].jobId != jobId ==> r[id] == quotes[id]) &&
      (forall id :: id in quotes && quotes[id].status != QuotePending ==> r[id] == quotes[id]) &&
      (forall id :: id in quotes && id != quoteId ==> r[id].status != QuoteAccepted || quotes[id].status == QuoteAccepted)
  {
  }

  /** Accepting keeps every (job, professional) pair to a single quote. */
  lemma AcceptKeepsPairsUnique(quotes: map<Id, QuoteRow>, quoteId: Id)
    requires quoteId in quotes && QuotePairsUnique(quotes)
    ensures QuotePairsUnique(AfterAccept(quotes, quoteId))
  {
    var r := AfterAccept(quotes, quoteId);
    forall a, b | a in r && b in r && r[a].jobId == r[b].jobId && r[a].professionalId == r[b].professionalId
      ensures a == b
    {
      assert quotes[a].jobId == r[a].jobId && quotes[b].jobId == r[b].jobId;
    }
  }

  /** The loop of `acceptQuote`: rejects each listed quote except the accepted one. */
  method RejectEach(db: Database, ids: seq<Id>, except: Id)
    requires forall i :: 0 <= i < |ids| ==> ids[i] in db.quotes
    requires forall i, j :: 0 <= i < j < |ids| ==> ids[i] < ids[j]
    modifies db`quotes
    ensures db.quotes.Keys == old(db.quotes).Keys
    ensures forall id :: id in old(db.quotes) ==>
      db.quotes[id] == if id in ids && id != except then old(db.quotes)[id].(status := QuoteRejected) else old(db.quotes)[id]
  {
    ghost var quotes0 := db.quotes;
    var i := 0;
    while i < |ids|
      invariant 0 <= i <= |ids|
      invariant RejectedUpTo(db.quotes, quotes0, ids[..i], except)
    {
      var id := ids[i];
      NotInPrefix(ids, i);
      RejectStep(db.quotes, quotes0, ids, i, except);
      if id != except {
        db.quotes := db.quotes[id := db.quotes[id].(status := QuoteRejected)];
      }
      i := i + 1;
    }
    assert ids[..i] == ids;
  }

  /** The quote table after the loop has rejected the quotes `done` lists, except one. */
  ghost predicate RejectedUpTo(q: map<Id, QuoteRow>, quotes0: map<Id, QuoteRow>, done: seq<Id>, except: Id) {
    q.Keys == quotes0.Keys &&
    forall id :: id in quotes0 ==>
      q[id] == if id in done && id != except then quotes0[id].(status := QuoteRejected) else quotes0[id]
  }

  /** One step of the rejecting loop keeps `RejectedUpTo` for the list grown by the id it handles. */
  lemma RejectStep(q: map<Id, QuoteRow>, quotes0: map<Id, QuoteRow>, ids: seq<Id>, i: nat, except: Id)
    requires i < |ids| && ids[i] !in ids[..i]
    requires RejectedUpTo(q, quotes0, ids[..i], except) && ids[i] in quotes0
    ensures ids[i] in q
    ensures RejectedUpTo(if ids[i] != except then q[ids[i] := q[ids[i]].(status := QuoteRejected)] else q,
                         quotes0, ids[..i + 1], except)
  {
    assert ids[..i + 1] == ids[..i] + [ids[i]];
    assert forall x :: x in ids[..i + 1] <==> x in ids[..i] || x == ids[i];
  }

  /** In an ascending list of ids no id occurs before its own position. */
  lemma NotInPrefix(ids: seq<Id>, i: nat)
    requires i < |ids| && forall a, b :: 0 <= a < b < |ids| ==> ids[a] < ids[b]
    ensures ids[i] !in ids[..i]
  {
    forall k | 0 <= k < i
      ensures ids[..i][k] != ids[i]
    {
      assert ids[k] < ids[i];
    }
  }

  /** Accepting the quote and then rejecting the job's quotes still pending gives `AfterAccept`. */
  lemma AcceptThenRejectPending(quotes: map<Id, QuoteRow>, next: Id, quoteId: Id, after: map<Id, QuoteRow>)
    requires KeysBelow(quotes, next) && quoteId in quotes && quotes[quoteId].status == QuotePending
    requires var accepted := quotes[quoteId := quotes[quoteId].(status := QuoteAccepted)];
      var others := Select(accepted, next, PendingOf(quotes[quoteId].jobId));
      after.Keys == accepted.Keys &&
      forall id :: id in accepted ==>
        after[id] == if id in others && id != quoteId then accepted[id].(status := QuoteRejected) else accepted[id]
    ensures after == AfterAccept(quotes, quoteId)
  {
    var accepted := quotes[quoteId := quotes[quoteId].(status := QuoteAccepted)];
    var others := Select(accepted, next, PendingOf(quotes[quoteId].jobId));
    var r := AfterAccept(quotes, quoteId);
    forall id | id in quotes ensures after[id] == r[id] {
      assert id in others <==>
        id != quoteId && quotes[id].jobId == quotes[quoteId].jobId && quotes[id].status == QuotePending;
    }
    assert after.Keys == r.Keys;
  }

  /**
   * `acceptQuote`: only a pending quote may be accepted; the job's other
   * pending quotes are then rejected one by one.
   */
  method AcceptQuote(db: Database, quoteId: Id) returns (r: Result<QuoteView>)
    requires db.Valid()
    modifies db`quotes
    ensures db.Valid()
    ensures quoteId !in old(db.quotes) ==> r == Failure(NotFound("Quote")) && db.quotes == old(db.quotes)
    ensures quoteId in old(db.quotes) && old(db.quotes)[quoteId].status != QuotePending ==>
      r == Failure(Invalid("Only pending quotes can be accepted")) && db.quotes == old(db.quotes)
    ensures quoteId in old(db.quotes) && old(db.quotes)[quoteId].status == QuotePending ==>
      db.quotes == AfterAccept(old(db.quotes), quoteId) && r == Success(QuoteView(quoteId, db.quotes[quoteId]))
  {
    if quoteId !in db.quotes {
      return Failure(NotFound("Quote"));
    }
    var quote := db.quotes[quoteId];
    if quote.status != QuotePending {
      return Failure(Invalid("Only pending quotes can be accepted"));
    }
    ghost var quotes0 := db.quotes;
    SettleJob(db, quoteId);
    AcceptKeepsPairsUnique(quotes0, quoteId);
    r := Success(QuoteView(quoteId, quote.(status := QuoteAccepted)));
  }

  /** The accepting branch of `acceptQuote`: the quote is accepted, then its job's other pending quotes are rejected. */
  method SettleJob(db: Database, quoteId: Id)
    requires KeysBelow(db.quotes, db.nextQuoteId) && quoteId in db.quotes && db.quotes[quoteId].status == QuotePending
    modifies db`quotes
    ensures db.quotes == AfterAccept(old(db.quotes), quoteId)
  {
    ghost var quotes0 := db.quotes;
    var quote := db.quotes[quoteId];
    db.quotes := db.quotes[quoteId := quote.(status := QuoteAccepted)];
    var others := Select(db.quotes, db.nextQuoteId, PendingOf(quote.jobId));
    RejectEach(db, others, quoteId);
    AcceptThenRejectPending(quotes0, db.nextQuoteId, quoteId, db.quotes);
  }

  /** `rejectQuote`: only a pending quote may be rejected, and no other quote changes. */
  method RejectQuote(db: Database, quoteId: Id) returns (r: Result<QuoteView>)
    requires db.Valid()
    modifies db`quotes
    ensures db.Valid()
    ensures quoteId !in old(db.quotes) ==> r == Failure(NotFound("Quote")) && db.quotes == old(db.quotes)
    ensures quoteId in old(db.quotes) && old(db.quotes)[quoteId].status != QuotePending ==>
      r == Failure(Invalid("Only pending quotes can be rejected")) && db.quotes == old(db.quotes)
    ensures quoteId in old(db.quotes) && old(db.quotes)[quoteId].status == QuotePending ==>
      db.quotes == old(db.quotes)[quoteId := old(db.quotes)[quoteId].(status := QuoteRejected)] &&
      r == Success(QuoteView(quoteId, db.quotes[quoteId]))
  {
    if quoteId !in db.quotes {
      return Failure(NotFound("Quote"));
    }
    var quote := db.quotes[quoteId];
    if quote.status != QuotePending {
      return Failure(Invalid("Only pending quotes can be rejected"));
    }
    var rejected := quote.(status := QuoteRejected);
    db.quotes := db.quotes[quoteId := rejected];
    r := Success(QuoteView(quoteId, rejected));
  }

  /** `deleteQuote`: removes the quote, whatever its status. */
  method DeleteQuote(db: Database, id: Id) returns (r: Result<()>)
    requires db.Valid()
    modifies db`quotes
    ensures db.Valid()
    ensures id !in old(db.quotes) ==> r == Failure(NotFound("Quote")) && db.quotes == old(db.quotes)
    ensures id in old(db.quotes) ==> r == Success(()) && db.quotes == old(db.quotes) - {id}
  {
    if id !in db.quotes {
      return Failure(NotFound("Quote"));
    }
    db.quotes := db.quotes - {id};
    r := Success(());
  }
}
