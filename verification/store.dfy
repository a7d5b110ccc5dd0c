/**
 * The database the services share: one table per entity, keyed by a
 * generated id drawn from a per-table counter, and the uniqueness the schema
 * or the services maintain. A query without an ORDER BY returns rows in
 * ascending id order.
 */
module Store {
  import opened Domain

  /** Every key of a table was drawn from its counter. */
  ghost predicate KeysBelow<V>(m: map<Id, V>, next: Id) {
    forall id :: id in m ==> id < next
  }

  /** No two match rows share a (job, professional) pair: the table's unique constraint. */
  ghost predicate MatchPairsUnique(m: map<Id, MatchRow>) {
    forall a, b :: a in m && b in m && m[a].jobId == m[b].jobId && m[a].professionalId == m[b].professionalId ==> a == b
  }

  /** No two quotes share a (job, professional) pair: kept by the quote service's duplicate check. */
  ghost predicate QuotePairsUnique(q: map<Id, QuoteRow>) {
    forall a, b :: a in q && b in q && q[a].jobId == q[b].jobId && q[a].professionalId == q[b].professionalId ==> a == b
  }

  /** Professionals' emails and user ids are unique columns. */
  ghost predicate ProfessionalKeysUnique(p: map<Id, ProfessionalRow>) {
    forall a, b :: a in p && b in p && (p[a].email == p[b].email || p[a].userId == p[b].userId) ==> a == b
  }

  /** `existsByJobIdAndProfessionalId` on the match table. */
  predicate MatchPairExists(m: map<Id, MatchRow>, jobId: Id, professionalId: Id) {
    exists id | id in m :: m[id].jobId == jobId && m[id].professionalId == professionalId
  }

  /** `existsByJobIdAndProfessionalId` on the quote table. */
  predicate QuotePairExists(q: map<Id, QuoteRow>, jobId: Id, professionalId: Id) {
    exists id | id in q :: q[id].jobId == jobId && q[id].professionalId == professionalId
  }

  /** A query: the ids below `n` whose rows satisfy `keep`, ascending. */
  function Select<V>(m: map<Id, V>, n: nat, keep: V -> bool): (ids: seq<Id>)
    ensures forall i :: 0 <= i < |ids| ==> ids[i] in m && ids[i] < n && keep(m[ids[i]])
    ensures forall id :: id in m && id < n && keep(m[id]) ==> id in ids
    ensures forall i, j :: 0 <= i < j < |ids| ==> ids[i] < ids[j]
  {
    if n == 0 then []
    else Select(m, n - 1, keep) + (if n - 1 in m && keep(m[n - 1]) then [n - 1] else [])
  }

  /** The rows of a selection, in its order. */
  function Rows<V>(m: map<Id, V>, ids: seq<Id>): (rows: seq<V>)
    requires forall i :: 0 <= i < |ids| ==> ids[i] in m
    ensures |rows| == |ids|
    ensures forall i :: 0 <= i < |ids| ==> rows[i] == m[ids[i]]
  {
    seq(|ids|, i requires 0 <= i < |ids| => m[ids[i]])
  }

  class Database {
    var customers: map<Id, CustomerRow>
    var professionals: map<Id, ProfessionalRow>
    var jobs: map<Id, JobRow>
    var matches: map<Id, MatchRow>
    var quotes: map<Id, QuoteRow>
    var nextCustomerId: Id
    var nextProfessionalId: Id
    var nextJobId: Id
    var nextMatchId: Id
    var nextQuoteId: Id

    ghost predicate Valid()
      reads this
    {
      KeysBelow(customers, nextCustomerId) && KeysBelow(professionals, nextProfessionalId) &&
      KeysBelow(jobs, nextJobId) && KeysBelow(matches, nextMatchId) && KeysBelow(quotes, nextQuoteId) &&
      ProfessionalKeysUnique(professionals) && MatchPairsUnique(matches) && QuotePairsUnique(quotes)
    }

    /** An empty database; identity columns start at 1. */
    constructor ()
      ensures Valid()
      ensures customers == map[] && professionals == map[] && jobs == map[]
      ensures matches == map[] && quotes == map[]
      ensures nextCustomerId == 1 && nextProfessionalId == 1 && nextJobId == 1
      ensures nextMatchId == 1 && nextQuoteId == 1
    {
      customers, professionals, jobs, matches, quotes := map[], map[], map[], map[], map[];
      nextCustomerId, nextProfessionalId, nextJobId, nextMatchId, nextQuoteId := 1, 1, 1, 1, 1;
    }
  }
}
