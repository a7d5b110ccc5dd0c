/**
 * MatchingEngine: the five dimension scorers, the weighted total, and the
 * reason chosen for each dimension. A professional is scored as its stored
 * row, with its expertise entries and availability slots in list order.
 */
module MatchingEngine {
  import opened Wrappers
  import opened Numbers
  import opened ValidationUtils
  import opened GeoUtils
  import opened Domain
  import opened Criteria

  // ----------------------------------------------------------- expertise

  /** `convertJobTypeToExpertise`: the expertise tag a job type requires. */
  function ExpertiseTag(jobType: JobType): (tag: string)
    ensures tag != [] && forall i :: 0 <= i < |tag| ==> !IsAsciiLower(tag[i])
  {
    match jobType
    case Installation => "PANEL_INSTALLATION"
    case BatterySetup => "BATTERY_SETUP"
    case Maintenance => "MAINTENANCE"
    case Repair => "REPAIR"
    case Inspection => "INSPECTION"
    case Upgrade => "UPGRADE"
  }

  /** The directional table of `hasRelatedExpertise`: a held tag that earns partial credit for a required one. */
  predicate IsRelated(required: string, held: string)
    ensures IsRelated(required, held) ==>
      required != held && held != [] && forall i :: 0 <= i < |held| ==> IsAsciiUpper(held[i]) || held[i] == '_'
    ensures IsRelated(required, held) ==>
      required == "PANEL_INSTALLATION" || required == "MAINTENANCE" || required == "REPAIR"
  {
    if required == "PANEL_INSTALLATION" then held == "UPGRADE" || held == "INSPECTION"
    else if required == "MAINTENANCE" then held == "REPAIR" || held == "INSPECTION"
    else if required == "REPAIR" then held == "MAINTENANCE"
    else false
  }

  /**
   * `hasRelatedExpertise`: some held entry is related to the required tag.
   * Only three job types can earn the partial credit at all.
   */
  predicate HasRelatedExpertise(list: seq<Expertise>, required: string)
    ensures HasRelatedExpertise(list, required) <==> exists e :: e in list && IsRelated(required, e.expertiseType)
    ensures HasRelatedExpertise(list, required) ==>
      list != [] && (required == "PANEL_INSTALLATION" || required == "MAINTENANCE" || required == "REPAIR")
  {
    exists i :: 0 <= i < |list| && IsRelated(required, list[i].expertiseType)
  }

  /** The table is one-way and compares exactly, unlike the case-insensitive exact match. */
  lemma RelatedTableIsDirectional()
    ensures IsRelated("REPAIR", "MAINTENANCE") && IsRelated("MAINTENANCE", "REPAIR")
    ensures IsRelated("PANEL_INSTALLATION", "UPGRADE") && !IsRelated("UPGRADE", "PANEL_INSTALLATION")
    ensures IsRelated("MAINTENANCE", "INSPECTION") && !IsRelated("INSPECTION", "MAINTENANCE")
    ensures !IsRelated("REPAIR", "maintenance")
    ensures forall r, h :: IsRelated(r, h) ==> forall i :: 0 <= i < |h| ==> !IsAsciiLower(h[i])
    ensures forall held :: !IsRelated("BATTERY_SETUP", held) && !IsRelated("UPGRADE", held)
  {
  }

  predicate IsExactMatch(e: Expertise, required: string) {
    EqualsIgnoreCase(e.expertiseType, required)
  }

  predicate HasCertification(e: Expertise) {
    e.certificationName.Some? && e.certificationName.value != []
  }

  predicate AnyExact(list: seq<Expertise>, required: string) {
    exists i :: 0 <= i < |list| && IsExactMatch(list[i], required)
  }

  predicate AnyExactCertified(list: seq<Expertise>, required: string) {
    exists i :: 0 <= i < |list| && IsExactMatch(list[i], required) && HasCertification(list[i])
  }

  /** The most years of experience recorded on an exact-match entry, or 0. */
  function ExactYears(list: seq<Expertise>, required: string): (m: int)
    ensures m >= 0
    ensures forall i :: (0 <= i < |list| && IsExactMatch(list[i], required) &&
              list[i].yearsExperience.Some?) ==> list[i].yearsExperience.value <= m
    ensures m == 0 ||
      exists i :: 0 <= i < |list| && IsExactMatch(list[i], required) && list[i].yearsExperience == Some(m)
  {
    if list == [] then 0
    else
      var m := ExactYears(list[..|list| - 1], required);
      var e := list[|list| - 1];
      if IsExactMatch(e, required) && e.yearsExperience.Some? && e.yearsExperience.value > m
      then e.yearsExperience.value
      else m
  }

  /**
   * The expertise score: 50 for an exact match or else 25 for a related tag,
   * up to 30 for the exact entries' years, 20 for an exact entry's
   * certification, at most 100; an empty list scores 0.
   */
  function ExpertiseScore(list: seq<Expertise>, jobType: JobType): (s: real)
    ensures 0.0 <= s <= 100.0
    ensures AnyExact(list, ExpertiseTag(jobType)) ==> s >= 50.0
    ensures !AnyExact(list, ExpertiseTag(jobType)) ==>
      s == if HasRelatedExpertise(list, ExpertiseTag(jobType)) then 25.0 else 0.0
  {
    if list == [] then 0.0
    else
      var required := ExpertiseTag(jobType);
      NoExactMeansNoYears(list, required);
      var base := if AnyExact(list, required) then 50.0
                  else if HasRelatedExpertise(list, required) then 25.0
                  else 0.0;
      var years := ExactYears(list, required);
      var experience := if years > 0 then Min(30.0, years as real * 3.0) else 0.0;
      var certification := if AnyExactCertified(list, required) then 20.0 else 0.0;
      Min(100.0, base + experience + certification)
  }

  /** How one more entry extends the three facts gathered over a prefix. */
  lemma ExpertisePrefixStep(list: seq<Expertise>, i: nat, required: string)
    requires i < |list|
    ensures AnyExact(list[..i + 1], required) == (AnyExact(list[..i], required) || IsExactMatch(list[i], required))
    ensures AnyExactCertified(list[..i + 1], required) ==
      (AnyExactCertified(list[..i], required) || (IsExactMatch(list[i], required) && HasCertification(list[i])))
    ensures ExactYears(list[..i + 1], required) ==
      (var m := ExactYears(list[..i], required);
       var e := list[i];
       if IsExactMatch(e, required) && e.yearsExperience.Some? && e.yearsExperience.value > m
       then e.yearsExperience.value else m)
  {
    var p, q := list[..i], list[..i + 1];
    assert q[..i] == p && q[i] == list[i];
    if AnyExact(q, required) && !IsExactMatch(list[i], required) {
      var k :| 0 <= k < |q| && IsExactMatch(q[k], required);
      assert p[k] == q[k];
    }
    if AnyExact(p, required) {
      var k :| 0 <= k < |p| && IsExactMatch(p[k], required);
      assert q[k] == p[k];
    }
    if AnyExactCertified(q, required) && !(IsExactMatch(list[i], required) && HasCertification(list[i])) {
      var k :| 0 <= k < |q| && IsExactMatch(q[k], required) && HasCertification(q[k]);
      assert p[k] == q[k];
    }
    if AnyExactCertified(p, required) {
      var k :| 0 <= k < |p| && IsExactMatch(p[k], required) && HasCertification(p[k]);
      assert q[k] == p[k];
    }
  }

  /** The loop of `calculateExpertiseScore`: whether an entry matches exactly, its best years, and a certification. */
  method ScanExpertise(list: seq<Expertise>, required: string)
    returns (hasMatch: bool, maxExperienceYears: int, hasCertification: bool)
    ensures hasMatch == AnyExact(list, required)
    ensures maxExperienceYears == ExactYears(list, required)
    ensures hasCertification == AnyExactCertified(list, required)
  {
    hasMatch, maxExperienceYears, hasCertification := false, 0, false;
    var i := 0;
    while i < |list|
      invariant 0 <= i <= |list|
      invariant hasMatch == AnyExact(list[..i], required)
      invariant maxExperienceYears == ExactYears(list[..i], required)
      invariant hasCertification == AnyExactCertified(list[..i], required)
    {
      var e := list[i];
      ExpertisePrefixStep(list, i, required);
      if EqualsIgnoreCase(e.expertiseType, required) {
        hasMatch := true;
        if e.yearsExperience.Some? && e.yearsExperience.value > maxExperienceYears {
          maxExperienceYears := e.yearsExperience.value;
        }
        if e.certificationName.Some? && e.certificationName.value != [] {
          hasCertification := true;
        }
      }
      i := i + 1;
    }
    assert list[..i] == list;
  }

  /** `calculateExpertiseScore`: one pass over the list, then the points are added up. */
  method CalculateExpertiseScore(list: seq<Expertise>, jobType: JobType) returns (score: real)
    ensures score == ExpertiseScore(list, jobType)
  {
    score := 0.0;
    if list == [] {
      return;
    }
    var required := ExpertiseTag(jobType);
    var hasMatch, maxExperienceYears, hasCertification := ScanExpertise(list, required);
    if hasMatch {
      score := score + 50.0;
    } else if HasRelatedExpertise(list, required) {
      score := score + 25.0;
    }
    if maxExperienceYears > 0 {
      score := score + Min(30.0, maxExperienceYears as real * 3.0);
    }
    if hasCertification {
      score := score + 20.0;
    }
    score := Min(100.0, score);
  }

  lemma NoExactMeansNoYears(list: seq<Expertise>, required: string)
    ensures !AnyExact(list, required) ==> ExactYears(list, required) == 0 && !AnyExactCertified(list, required)
  {
  }

  /** An exact match with ten years and a certification reaches the cap of 100. */
  lemma ExpertiseScoreFull(list: seq<Expertise>, jobType: JobType, k: nat)
    requires k < |list| && IsExactMatch(list[k], ExpertiseTag(jobType)) && HasCertification(list[k])
    requires list[k].yearsExperience.Some? && list[k].yearsExperience.value >= 10
    ensures ExpertiseScore(list, jobType) == 100.0
  {
    var years := ExactYears(list, ExpertiseTag(jobType));
    assert years >= 10;
    assert years as real * 3.0 >= 30.0;
  }

  /** An entry that neither matches nor relates to the required tag changes nothing. */
  lemma IrrelevantEntryIgnored(list: seq<Expertise>, e: Expertise, jobType: JobType)
    requires list != []
    requires !IsExactMatch(e, ExpertiseTag(jobType)) && !IsRelated(ExpertiseTag(jobType), e.expertiseType)
    ensures ExpertiseScore(list + [e], jobType) == ExpertiseScore(list, jobType)
  {
    var required := ExpertiseTag(jobType);
    var l := list + [e];
    assert l[..|l| - 1] == list;
    assert AnyExact(l, required) == AnyExact(list, required) by {
      if AnyExact(l, required) {
        var i :| 0 <= i < |l| && IsExactMatch(l[i], required);
        assert i < |list| && list[i] == l[i];
      }
      if AnyExact(list, required) {
        var i :| 0 <= i < |list| && IsExactMatch(list[i], required);
        assert l[i] == list[i];
      }
    }
    assert AnyExactCertified(l, required) == AnyExactCertified(list, required) by {
      if AnyExactCertified(l, required) {
        var i :| 0 <= i < |l| && IsExactMatch(l[i], required) && HasCertification(l[i]);
        assert i < |list| && list[i] == l[i];
      }
      if AnyExactCertified(list, required) {
        var i :| 0 <= i < |list| && IsExactMatch(list[i], required) && HasCertification(list[i]);
        assert l[i] == list[i];
      }
    }
    assert HasRelatedExpertise(l, required) == HasRelatedExpertise(list, required) by {
      if HasRelatedExpertise(l, required) {
        var i :| 0 <= i < |l| && IsRelated(required, l[i].expertiseType);
        assert i < |list| && list[i] == l[i];
      }
      if HasRelatedExpertise(list, required) {
        var i :| 0 <= i < |list| && IsRelated(required, list[i].expertiseType);
        assert l[i] == list[i];
      }
    }
  }

  // -------------------------------------------------------- availability

  predicate IsFree(s: Slot) { !s.isBooked }

  /** The number of unbooked slots. */
  function CountFree(slots: seq<Slot>): (n: nat)
    ensures n <= |slots|
    ensures n > 0 <==> exists i :: 0 <= i < |slots| && IsFree(slots[i])
  {
    if slots == [] then 0
    else CountFree(slots[..|slots| - 1]) + (if IsFree(slots[|slots| - 1]) then 1 else 0)
  }

  /** The number of unbooked slots on day `d`. */
  function CountFreeOn(slots: seq<Slot>, d: Date): (n: nat)
    ensures n <= CountFree(slots)
    ensures n > 0 <==> exists i :: 0 <= i < |slots| && IsFree(slots[i]) && slots[i].date == d
  {
    if slots == [] then 0
    else
      var last := slots[|slots| - 1];
      CountFreeOn(slots[..|slots| - 1], d) + (if IsFree(last) && last.date == d then 1 else 0)
  }

  /** The number of unbooked slots within seven days either side of `d`, both ends included. */
  function CountFreeNear(slots: seq<Slot>, d: Date): (n: nat)
    ensures CountFreeOn(slots, d) <= n <= CountFree(slots)
    ensures n > 0 <==> exists i :: 0 <= i < |slots| && IsFree(slots[i]) && d - 7 <= slots[i].date <= d + 7
  {
    if slots == [] then 0
    else
      var last := slots[|slots| - 1];
      CountFreeNear(slots[..|slots| - 1], d) + (if IsFree(last) && d - 7 <= last.date <= d + 7 then 1 else 0)
  }

  /**
   * The availability score: 20 without slots; without a preferred date 70 if
   * any slot is free, else 20; with one, 60 for a free slot on the day, 5 per
   * free slot up to 30, and 10 for a free slot in the surrounding fortnight
   * when none is on the day, at most 100.
   */
  function AvailabilityScore(slots: seq<Slot>, preferredDate: Option<Date>): (s: real)
    ensures 0.0 <= s <= 100.0
    ensures slots == [] ==> s == 20.0
    ensures preferredDate.None? ==> (s == 70.0 <==> exists i :: 0 <= i < |slots| && IsFree(slots[i]))
    ensures preferredDate.None? ==> s == 70.0 || s == 20.0
  {
    if slots == [] then 20.0
    else if preferredDate.None? then (if CountFree(slots) > 0 then 70.0 else 20.0)
    else
      var d := preferredDate.value;
      var onDate := CountFreeOn(slots, d);
      var s := (if onDate > 0 then 60.0 else 0.0) + Min(30.0, CountFree(slots) as real * 5.0);
      var t := if onDate == 0 && CountFreeNear(slots, d) > 0 then s + 10.0 else s;
      Min(100.0, t)
  }

  /** How one more slot extends the three counts over a prefix. */
  lemma SlotPrefixStep(slots: seq<Slot>, i: nat, d: Date)
    requires i < |slots|
    ensures var s := slots[i];
      CountFree(slots[..i + 1]) == CountFree(slots[..i]) + (if IsFree(s) then 1 else 0) &&
      CountFreeOn(slots[..i + 1], d) == CountFreeOn(slots[..i], d) + (if IsFree(s) && s.date == d then 1 else 0) &&
      CountFreeNear(slots[..i + 1], d) ==
        CountFreeNear(slots[..i], d) + (if IsFree(s) && d - 7 <= s.date <= d + 7 then 1 else 0)
  {
    assert slots[..i + 1][..i] == slots[..i];
  }

  /** The loop of `calculateAvailabilityScore`: free slots, free slots on day `d` and free slots near it. */
  method CountSlots(slots: seq<Slot>, d: Date) returns (available: nat, onDate: nat, nearby: nat)
    ensures available == CountFree(slots)
    ensures onDate == CountFreeOn(slots, d)
    ensures nearby == CountFreeNear(slots, d)
  {
    available, onDate, nearby := 0, 0, 0;
    var i := 0;
    while i < |slots|
      invariant 0 <= i <= |slots|
      invariant available == CountFree(slots[..i])
      invariant onDate == CountFreeOn(slots[..i], d)
      invariant nearby == CountFreeNear(slots[..i], d)
    {
      var s := slots[i];
      SlotPrefixStep(slots, i, d);
      if !s.isBooked {
        available := available + 1;
        if s.date == d {
          onDate := onDate + 1;
        }
        if d - 7 <= s.date <= d + 7 {
          nearby := nearby + 1;
        }
      }
      i := i + 1;
    }
    assert slots[..i] == slots;
  }

  /** `calculateAvailabilityScore`: the three counts in one pass, then the points are added up. */
  method CalculateAvailabilityScore(slots: seq<Slot>, preferredDate: Option<Date>) returns (score: real)
    ensures score == AvailabilityScore(slots, preferredDate)
  {
    if slots == [] {
      return 20.0;
    }
    var d := preferredDate.GetOr(0);
    var available, onDate, nearby := CountSlots(slots, d);
    if preferredDate.None? {
      return if available > 0 then 70.0 else 20.0;
    }
    score := 0.0;
    if onDate > 0 {
      score := score + 60.0;
    }
    score := score + Min(30.0, available as real * 5.0);
    if onDate == 0 && nearby > 0 {
      score := score + 10.0;
    }
    score := Min(100.0, score);
  }

  /**
   * With a preferred date the score never exceeds 90, and it reaches 60
   * exactly when some free slot falls on that day.
   */
  lemma AvailabilityWithDate(slots: seq<Slot>, d: Date)
    ensures AvailabilityScore(slots, Some(d)) <= 90.0
    ensures AvailabilityScore(slots, Some(d)) >= 60.0 <==>
      exists i :: 0 <= i < |slots| && IsFree(slots[i]) && slots[i].date == d
  {
    var onDate := CountFreeOn(slots, d);
    if onDate == 0 {
      assert AvailabilityScore(slots, Some(d)) <= 40.0;
    }
  }

  /** One free slot three days after the preferred date, none on it: 5 for the slot plus 10 for flexibility. */
  lemma AvailabilityOneSlotNearby(d: Date, start: Time, end: Time)
    ensures AvailabilityScore([Slot(d + 3, start, end, false)], Some(d)) == 15.0
  {
    var slots := [Slot(d + 3, start, end, false)];
    assert slots[..0] == [];
    assert CountFree(slots) == 1 && CountFreeOn(slots, d) == 0 && CountFreeNear(slots, d) == 1;
  }

  // -------------------------------------------------------------- rating

  /**
   * `calculateRatingScore`: 50 for a missing or zero rating; otherwise 20 per
   * star plus half a point per completed job up to 10, at most 100.
   */
  function RatingScore(rating: Option<real>, jobsCompleted: Option<int>): (s: real)
    ensures s <= 100.0
    ensures rating.None? || rating.value == 0.0 ==> s == 50.0
    ensures rating.Some? && 0.0 <= rating.value ==> 0.0 <= s
  {
    if rating.None? || rating.value == 0.0 then 50.0
    else
      var baseScore := rating.value * 20.0;
      var trackRecordBonus := if jobsCompleted.Some? && jobsCompleted.value > 0
                              then Min(10.0, jobsCompleted.value as real * 0.5) else 0.0;
      Min(100.0, baseScore + trackRecordBonus)
  }

  /** Among rated professionals a better rating or a longer record never lowers the score. */
  lemma RatingScoreMonotone(r1: real, r2: real, j1: Option<int>, j2: Option<int>)
    requires 0.0 < r1 <= r2
    requires j1.Some? ==> j2.Some? && j1.value <= j2.value
    ensures RatingScore(Some(r1), j1) <= RatingScore(Some(r2), j2)
  {
  }

  /** A new professional (rating 0) outscores every rated one below 2 stars with no completed jobs. */
  lemma NewProfessionalOutscoresLowRating(r: real)
    requires 0.0 < r < 2.0
    ensures RatingScore(Some(r), Some(0)) < RatingScore(Some(0.0), Some(0))
  {
  }

  // --------------------------------------------------------------- price

  /** The job length, in hours, that the price score assumes. */
  const ASSUMED_JOB_HOURS: real := 20.0

  /**
   * `calculatePriceScore`: 50 without a rate; without a budget the absolute
   * tiers below 1000, 2000 and 3000 score 100, 80 and 60, else 40; with a
   * budget the inclusive tiers 70%, 100%, 120% and 150% of it score 100, 80,
   * 60 and 40, else 20.
   */
  function PriceScore(hourlyRate: Option<real>, budgetMax: Option<real>): (s: real)
    ensures s == 50.0 <==> hourlyRate.None?
    ensures 20.0 <= s <= 100.0
  {
    if hourlyRate.None? then 50.0
    else
      var estimatedCost := hourlyRate.value * ASSUMED_JOB_HOURS;
      if budgetMax.None? then
        if estimatedCost < 1000.0 then 100.0
        else if estimatedCost < 2000.0 then 80.0
        else if estimatedCost < 3000.0 then 60.0
        else 40.0
      else
        var budget := budgetMax.value;
        if estimatedCost <= budget * 0.7 then 100.0
        else if estimatedCost <= budget then 80.0
        else if estimatedCost <= budget * 1.2 then 60.0
        else if estimatedCost <= budget * 1.5 then 40.0
        else 20.0
  }

  /** A dearer rate never scores higher, whatever the budget (even a negative one). */
  lemma PriceScoreAntitone(rate1: real, rate2: real, budgetMax: Option<real>)
    requires rate1 <= rate2
    ensures PriceScore(Some(rate2), budgetMax) <= PriceScore(Some(rate1), budgetMax)
  {
  }

  // --------------------------------------------------------------- total

  /** One dimension's share of the total. */
  function Weighted(score: real, weight: real): real {
    score * weight / 100.0
  }

  /** The weighted total: each dimension score times its weight, over 100. */
  function WeightedTotal(ds: real, es: real, avs: real, rs: real, ps: real, c: MatchCriteria): (t: real)
    ensures ds == es == avs == rs == ps ==> t == ds * WeightSum(c) / 100.0
  {
    Weighted(ds, c.distanceWeight) + Weighted(es, c.expertiseWeight) + Weighted(avs, c.availabilityWeight) +
    Weighted(rs, c.ratingWeight) + Weighted(ps, c.priceWeight)
  }

  lemma WeightedTermBounds(s: real, w: real)
    requires 0.0 <= s <= 100.0 && w >= 0.0
    ensures 0.0 <= Weighted(s, w) <= w
  {
    MulNonneg(s, w);
    MulNonneg(100.0 - s, w);
    assert (100.0 - s) * w == 100.0 * w - s * w;
  }

  /** With balanced weights and every dimension in [0, 100], the total is in [0, 100]. */
  lemma WeightedTotalInRange(ds: real, es: real, avs: real, rs: real, ps: real, c: MatchCriteria)
    requires HasBalancedWeights(c)
    requires 0.0 <= ds <= 100.0 && 0.0 <= es <= 100.0 && 0.0 <= avs <= 100.0
    requires 0.0 <= rs <= 100.0 && 0.0 <= ps <= 100.0
    ensures 0.0 <= WeightedTotal(ds, es, avs, rs, ps, c) <= 100.0
  {
    WeightedTermBounds(ds, c.distanceWeight);
    WeightedTermBounds(es, c.expertiseWeight);
    WeightedTermBounds(avs, c.availabilityWeight);
    WeightedTermBounds(rs, c.ratingWeight);
    WeightedTermBounds(ps, c.priceWeight);
  }

  /** With balanced weights, equal dimension scores give that score as the total. */
  lemma WeightedTotalOfEqualScores(x: real, c: MatchCriteria)
    requires HasBalancedWeights(c)
    ensures WeightedTotal(x, x, x, x, x, c) == x
  {
    calc {
      WeightedTotal(x, x, x, x, x, c);
      x * (c.distanceWeight + c.expertiseWeight + c.availabilityWeight + c.ratingWeight + c.priceWeight) / 100.0;
      x * 100.0 / 100.0;
    }
  }

  // ------------------------------------------------------------- reasons

  datatype DistanceReason = VeryClose | Close | WithinServiceArea | OutsideServiceArea

  /**
   * `generateDistanceReason`, reduced to the bucket it picks. With a radius
   * of at least 10 km the bucket agrees with the score at both ends.
   */
  function DistanceReasonOf(distanceKm: real, serviceRadiusKm: int): (reason: DistanceReason)
    ensures serviceRadiusKm >= 10 ==>
      (reason == VeryClose <==> DistanceScore(distanceKm, serviceRadiusKm) == 100.0)
    ensures serviceRadiusKm >= 10 && reason == OutsideServiceArea ==> DistanceScore(distanceKm, serviceRadiusKm) == 0.0
  {
    if distanceKm <= 10.0 then VeryClose
    else if distanceKm <= serviceRadiusKm as real * 0.5 then
      DistanceScoreInBand(distanceKm, serviceRadiusKm);
      Close
    else if distanceKm <= serviceRadiusKm as real then
      DistanceScoreInBand(distanceKm, serviceRadiusKm);
      WithinServiceArea
    else OutsideServiceArea
  }

  /**
   * Where the bucket and the score disagree: inside 10 km but beyond a radius
   * under 10 it says "very close" and scores 0; at a radius over 10 it says
   * "within service area" and scores 0.
   */
  lemma DistanceReasonDisagrees(distanceKm: real, serviceRadiusKm: int)
    ensures serviceRadiusKm as real < distanceKm <= 10.0 ==>
      DistanceReasonOf(distanceKm, serviceRadiusKm) == VeryClose && DistanceScore(distanceKm, serviceRadiusKm) == 0.0
    ensures serviceRadiusKm > 10 ==>
      DistanceReasonOf(serviceRadiusKm as real, serviceRadiusKm) == WithinServiceArea &&
      DistanceScore(serviceRadiusKm as real, serviceRadiusKm) == 0.0
  {
    if serviceRadiusKm > 10 {
      DistanceScoreZeroAtRadius(serviceRadiusKm);
    }
  }

  datatype ExpertiseReason = DirectMatch | RelatedExpertise | GeneralExperience

  /** `generateExpertiseReason`, reduced to the bucket it picks, which the score's shape determines. */
  function ExpertiseReasonOf(list: seq<Expertise>, jobType: JobType): (reason: ExpertiseReason)
    ensures reason == DirectMatch <==> ExpertiseScore(list, jobType) >= 50.0
    ensures reason == RelatedExpertise <==> ExpertiseScore(list, jobType) == 25.0
    ensures reason == GeneralExperience <==> ExpertiseScore(list, jobType) == 0.0
  {
    var required := ExpertiseTag(jobType);
    if AnyExact(list, required) then DirectMatch
    else if HasRelatedExpertise(list, required) then RelatedExpertise
    else GeneralExperience
  }

  datatype AvailabilityReason = OpenScheduling | OnPreferredDate | AlternativeDates

  /**
   * `generateAvailabilityReason`, reduced to the bucket it picks: with a
   * preferred date it names the day exactly when the score reaches 60.
   */
  function AvailabilityReasonOf(slots: seq<Slot>, preferredDate: Option<Date>): (reason: AvailabilityReason)
    ensures reason == OpenScheduling <==> preferredDate.None?
    ensures preferredDate.Some? ==> (reason == OnPreferredDate <==> AvailabilityScore(slots, preferredDate) >= 60.0)
  {
    if preferredDate.None? then OpenScheduling
    else
      AvailabilityWithDate(slots, preferredDate.value);
      if CountFreeOn(slots, preferredDate.value) > 0 then OnPreferredDate
      else AlternativeDates
  }

  datatype RatingReason = NewProfessional | Rated(rating: real, jobs: int)

  /**
   * `generateRatingReason`, reduced to its bucket and the figures it prints:
   * a new professional scores the neutral 50, and the printed rating and job
   * count of a rated one determine its score.
   */
  function RatingReasonOf(rating: Option<real>, jobsCompleted: Option<int>): (reason: RatingReason)
    ensures reason == NewProfessional ==> RatingScore(rating, jobsCompleted) == 50.0
    ensures reason.Rated? ==>
      rating == Some(reason.rating) && reason.rating != 0.0 &&
      RatingScore(rating, jobsCompleted) ==
        Min(100.0, reason.rating * 20.0 + (if reason.jobs > 0 then Min(10.0, reason.jobs as real * 0.5) else 0.0))
  {
    if rating.None? || rating.value == 0.0 then NewProfessional
    else Rated(rating.value, jobsCompleted.GetOr(0))
  }

  datatype PriceReason = Negotiable | HourlyRate(rate: real) | WellWithinBudget | WithinBudget | AboveBudget

  /** `generatePriceReason`, reduced to its bucket; with a rate and a budget the three buckets split the five tiers. */
  function PriceReasonOf(hourlyRate: Option<real>, budgetMax: Option<real>): (reason: PriceReason)
    ensures reason == Negotiable <==> PriceScore(hourlyRate, budgetMax) == 50.0
    ensures hourlyRate.Some? && budgetMax.Some? ==>
      (reason == WellWithinBudget <==> PriceScore(hourlyRate, budgetMax) == 100.0) &&
      (reason == WithinBudget <==> PriceScore(hourlyRate, budgetMax) == 80.0) &&
      (reason == AboveBudget <==> PriceScore(hourlyRate, budgetMax) <= 60.0)
  {
    if hourlyRate.None? then Negotiable
    else if budgetMax.None? then HourlyRate(hourlyRate.value)
    else
      var estimatedCost := hourlyRate.value * ASSUMED_JOB_HOURS;
      if estimatedCost <= budgetMax.value * 0.7 then WellWithinBudget
      else if estimatedCost <= budgetMax.value then WithinBudget
      else AboveBudget
  }

  // ----------------------------------------------------------- breakdown

  /** `MatchScoreBreakdown`: every figure rounded to two decimals, and the reasons. */
  datatype ScoreBreakdown = ScoreBreakdown(
    distanceKm: real,
    distanceScore: real,
    expertiseScore: real,
    availabilityScore: real,
    ratingScore: real,
    priceScore: real,
    totalScore: real,
    distanceReason: DistanceReason,
    expertiseReason: ExpertiseReason,
    availabilityReason: AvailabilityReason,
    ratingReason: RatingReason,
    priceReason: PriceReason)

  /** The distance from a professional to a job; `Double.MAX_VALUE` when the professional has no position. */
  function DistanceTo(p: ProfessionalRow, job: JobRow, arc: Arc): (d: real)
    ensures p.latitude.None? || p.longitude.None? ==> d == MAX_DOUBLE
    ensures p.latitude.Some? && p.longitude.Some? ==>
      d == arc(p.latitude.value, p.longitude.value, job.latitude, job.longitude)
  {
    CalculateDistance(p.latitude, p.longitude, Some(job.latitude), Some(job.longitude), arc)
  }

  /**
   * The score of one professional for one job. Scoring fails only when the
   * professional has no service radius: unboxing it throws.
   */
  function MatchScore(p: ProfessionalRow, job: JobRow, c: MatchCriteria, arc: Arc): (r: Result<ScoreBreakdown>)
    ensures r.Failure? <==> p.serviceRadiusKm.None?
  {
    if p.serviceRadiusKm.None? then Failure(Fault("serviceRadiusKm is null"))
    else
      var radius := p.serviceRadiusKm.value;
      var d := DistanceTo(p, job, arc);
      var ds := DistanceScore(d, radius);
      var es := ExpertiseScore(p.expertiseList, job.jobType);
      var avs := AvailabilityScore(p.availabilitySlots, job.preferredDate);
      var rs := RatingScore(p.rating, p.totalJobsCompleted);
      var ps := PriceScore(p.hourlyRate, job.budgetMax);
      var total := WeightedTotal(ds, es, avs, rs, ps, c);
      Success(ScoreBreakdown(
        Round2(d), Round2(ds), Round2(es), Round2(avs), Round2(rs), Round2(ps), Round2(total),
        DistanceReasonOf(d, radius),
        ExpertiseReasonOf(p.expertiseList, job.jobType),
        AvailabilityReasonOf(p.availabilitySlots, job.preferredDate),
        RatingReasonOf(p.rating, p.totalJobsCompleted),
        PriceReasonOf(p.hourlyRate, job.budgetMax)))
  }

  /** `calculateMatchScore`: the five scorers, the weighted total, the rounding and the reasons. */
  method CalculateMatchScore(p: ProfessionalRow, job: JobRow, c: MatchCriteria, arc: Arc)
    returns (r: Result<ScoreBreakdown>)
    ensures r == MatchScore(p, job, c, arc)
  {
    if p.serviceRadiusKm.None? {
      return Failure(Fault("serviceRadiusKm is null"));
    }
    var radius := p.serviceRadiusKm.value;
    var distanceKm := DistanceTo(p, job, arc);
    var distanceScore := DistanceScore(distanceKm, radius);
    var expertiseScore := CalculateExpertiseScore(p.expertiseList, job.jobType);
    var availabilityScore := CalculateAvailabilityScore(p.availabilitySlots, job.preferredDate);
    var ratingScore := RatingScore(p.rating, p.totalJobsCompleted);
    var priceScore := PriceScore(p.hourlyRate, job.budgetMax);
    var totalScore := WeightedTotal(distanceScore, expertiseScore, availabilityScore, ratingScore, priceScore, c);
    r := Success(ScoreBreakdown(
      Round2(distanceKm), Round2(distanceScore), Round2(expertiseScore), Round2(availabilityScore),
      Round2(ratingScore), Round2(priceScore), Round2(totalScore),
      DistanceReasonOf(distanceKm, radius),
      ExpertiseReasonOf(p.expertiseList, job.jobType),
      AvailabilityReasonOf(p.availabilitySlots, job.preferredDate),
      RatingReasonOf(p.rating, p.totalJobsCompleted),
      PriceReasonOf(p.hourlyRate, job.budgetMax)));
  }

  /**
   * Every figure of a breakdown is whole hundredths. A rated professional's
   * figures all lie in [0, 100] after rounding, and so does the total when
   * the weights are balanced.
   */
  lemma MatchScoreBounds(p: ProfessionalRow, job: JobRow, c: MatchCriteria, arc: Arc)
    ensures MatchScore(p, job, c, arc).Success? ==>
      var b := MatchScore(p, job, c, arc).value;
      IsCents(b.distanceKm) && IsCents(b.distanceScore) && IsCents(b.expertiseScore) &&
      IsCents(b.availabilityScore) && IsCents(b.ratingScore) && IsCents(b.priceScore) && IsCents(b.totalScore)
    ensures MatchScore(p, job, c, arc).Success? ==>
      var b := MatchScore(p, job, c, arc).value;
      0.0 <= b.distanceScore <= 100.0 && 0.0 <= b.expertiseScore <= 100.0 &&
      0.0 <= b.availabilityScore <= 100.0 && b.ratingScore <= 100.0 && 20.0 <= b.priceScore <= 100.0
    ensures MatchScore(p, job, c, arc).Success? && HasBalancedWeights(c) &&
            (p.rating.Some? ==> p.rating.value >= 0.0) ==>
      0.0 <= MatchScore(p, job, c, arc).value.totalScore <= 100.0
  {
    if p.serviceRadiusKm.Some? {
      var radius := p.serviceRadiusKm.value;
      var d := DistanceTo(p, job, arc);
      var ds := DistanceScore(d, radius);
      var es := ExpertiseScore(p.expertiseList, job.jobType);
      var avs := AvailabilityScore(p.availabilitySlots, job.preferredDate);
      var rs := RatingScore(p.rating, p.totalJobsCompleted);
      var ps := PriceScore(p.hourlyRate, job.budgetMax);
      assert IsCents(0.0) && IsCents(20.0) && IsCents(100.0);
      Round2Within(ds, 0.0, 100.0);
      Round2Within(es, 0.0, 100.0);
      Round2Within(avs, 0.0, 100.0);
      Round2Within(ps, 20.0, 100.0);
      Round2Monotone(rs, 100.0);
      Round2Exact(100.0);
      if HasBalancedWeights(c) && (p.rating.Some? ==> p.rating.value >= 0.0) {
        WeightedTotalInRange(ds, es, avs, rs, ps, c);
        Round2Within(WeightedTotal(ds, es, avs, rs, ps, c), 0.0, 100.0);
      }
    }
  }
}
