/** MatchCriteria: the weights, threshold, cap and pool filter of one matching run. */
module Criteria {

  datatype MatchCriteria = MatchCriteria(
    distanceWeight: real,
    expertiseWeight: real,
    availabilityWeight: real,
    ratingWeight: real,
    priceWeight: real,
    minimumMatchScore: real,
    maxMatches: int,
    verifiedOnly: bool)

  /** The builder's defaults. */
  const DEFAULT: MatchCriteria := MatchCriteria(30.0, 25.0, 20.0, 15.0, 10.0, 50.0, 10, true)

  function WeightSum(c: MatchCriteria): real {
    c.distanceWeight + c.expertiseWeight + c.availabilityWeight + c.ratingWeight + c.priceWeight
  }

  /** What the class comment asks of the weights and nothing enforces: non-negative, summing to 100. */
  predicate HasBalancedWeights(c: MatchCriteria) {
    c.distanceWeight >= 0.0 && c.expertiseWeight >= 0.0 && c.availabilityWeight >= 0.0 &&
    c.ratingWeight >= 0.0 && c.priceWeight >= 0.0 && WeightSum(c) == 100.0
  }

  lemma DefaultsAreBalanced()
    ensures HasBalancedWeights(DEFAULT)
    ensures DEFAULT.minimumMatchScore == 50.0 && DEFAULT.maxMatches == 10 && DEFAULT.verifiedOnly
  {
  }

  /** How many of the five weights differ between two criteria. */
  function DifferingWeights(a: MatchCriteria, b: MatchCriteria): (n: nat)
    ensures n <= 5
    ensures n == 0 <==> a.distanceWeight == b.distanceWeight && a.expertiseWeight == b.expertiseWeight &&
                         a.availabilityWeight == b.availabilityWeight && a.ratingWeight == b.ratingWeight &&
                         a.priceWeight == b.priceWeight
  {
    (if a.distanceWeight != b.distanceWeight then 1 else 0) +
    (if a.expertiseWeight != b.expertiseWeight then 1 else 0) +
    (if a.availabilityWeight != b.availabilityWeight then 1 else 0) +
    (if a.ratingWeight != b.ratingWeight then 1 else 0) +
    (if a.priceWeight != b.priceWeight then 1 else 0)
  }

  /**
   * Nothing keeps an override balanced: changing any one weight alone of
   * balanced criteria, such as the defaults, unbalances them.
   */
  lemma OneOverrideUnbalances(a: MatchCriteria, b: MatchCriteria)
    requires HasBalancedWeights(a) && DifferingWeights(a, b) == 1
    ensures !HasBalancedWeights(b)
    ensures WeightSum(b) != 100.0
  {
  }
}
