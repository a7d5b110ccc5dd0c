/**
 * The Professional entity as the persistence layer holds it in memory: a
 * professional owns its expertise entries and availability slots, and each
 * child points back to its owner. The add and remove helpers keep both sides
 * of that link in step.
 */
module ProfessionalEntity {
  import opened Wrappers
  import opened Domain

  /**
   * The position of the first key equal to `k`, or `|keys|` when there is none:
   * the search `List.remove(Object)` makes with the argument's `equals`.
   */
  function FirstMatch<K(==)>(keys: seq<K>, k: K): (i: nat)
    ensures i <= |keys|
    ensures i < |keys| <==> k in keys
    ensures i < |keys| ==> keys[i] == k
    ensures forall j :: 0 <= j < i ==> keys[j] != k
  {
    if keys == [] then 0
    else if keys[0] == k then 0
    else 1 + FirstMatch(keys[1..], k)
  }

  /** `s` without the element whose key is the first equal to `k`; `s` itself when no key is. */
  function RemoveFirstBy<T, K(==)>(s: seq<T>, keys: seq<K>, k: K): (r: seq<T>)
    requires |keys| == |s|
    ensures k !in keys ==> r == s
    ensures k in keys ==> |r| == |s| - 1
    ensures forall y :: y in r ==> y in s
  {
    if s == [] then []
    else if keys[0] == k then s[1..]
    else [s[0]] + RemoveFirstBy(s[1..], keys[1..], k)
  }

  /** The removal cuts out exactly the element at the first matching key and keeps the order of the rest. */
  lemma {:induction false} RemoveFirstByCutsFirst<T, K>(s: seq<T>, keys: seq<K>, k: K)
    requires |keys| == |s| && k in keys
    ensures var i := FirstMatch(keys, k);
      RemoveFirstBy(s, keys, k) == s[..i] + s[i + 1..]
  {
    if keys[0] != k {
      RemoveFirstByCutsFirst(s[1..], keys[1..], k);
      var i := FirstMatch(keys[1..], k);
      assert s[..i + 1] == [s[0]] + s[1..][..i];
      assert s[i + 2..] == s[1..][i + 1..];
    }
  }

  /** As a bag, the removal takes away the one element at the first matching key and nothing else. */
  lemma {:induction false} RemoveFirstByMultiset<T, K>(s: seq<T>, keys: seq<K>, k: K)
    requires |keys| == |s| && k in keys
    ensures multiset(RemoveFirstBy(s, keys, k)) == multiset(s) - multiset{s[FirstMatch(keys, k)]}
  {
    assert s == [s[0]] + s[1..];
    if keys[0] != k {
      RemoveFirstByMultiset(s[1..], keys[1..], k);
    }
  }

  /**
   * When no two elements share a key, removing by `x`'s key removes `x` itself:
   * only then does value equality agree with identity.
   */
  lemma {:induction false} RemoveFirstByDistinctKeys<T, K>(s: seq<T>, keys: seq<K>, j: nat)
    requires |keys| == |s| && j < |s|
    requires forall a, b :: 0 <= a < b < |keys| ==> keys[a] != keys[b]
    ensures RemoveFirstBy(s, keys, keys[j]) == s[..j] + s[j + 1..]
  {
    assert FirstMatch(keys, keys[j]) == j;
    RemoveFirstByCutsFirst(s, keys, keys[j]);
  }

  /**
   * When an earlier element shares `s[j]`'s key, removing by that key leaves
   * `s[j]` in place: value equality removes a different element.
   */
  lemma RemoveFirstByEarlierTwin<T, K>(s: seq<T>, keys: seq<K>, i: nat, j: nat)
    requires |keys| == |s| && i < j < |s| && keys[i] == keys[j]
    requires forall a :: 0 <= a < |s| && a != j ==> s[a] != s[j]
    ensures s[j] in RemoveFirstBy(s, keys, keys[j])
  {
    var m := FirstMatch(keys, keys[j]);
    assert m <= i;
    RemoveFirstByCutsFirst(s, keys, keys[j]);
    assert s[j] == (s[..m] + s[m + 1..])[j - 1];
  }

  /**
   * The fields Lombok's generated `equals` compares for an expertise entry, in
   * declaration order. The owner is compared by reference.
   */
  datatype ExpertiseKey = ExpertiseKey(
    id: Option<Id>, owner: Professional?, expertiseType: string,
    yearsExperience: Option<int>, certificationName: Option<string>, createdAt: Option<int>)

  /** The fields Lombok's generated `equals` compares for an availability slot. */
  datatype SlotKey = SlotKey(
    id: Option<Id>, owner: Professional?, date: Date, startTime: Time, endTime: Time,
    isBooked: bool, createdAt: Option<int>)

  function ExpertiseKeys(s: seq<ProfessionalExpertise>): (ks: seq<ExpertiseKey>)
    reads s
    ensures |ks| == |s| && forall i :: 0 <= i < |s| ==> ks[i] == s[i].Key()
  {
    if s == [] then [] else [s[0].Key()] + ExpertiseKeys(s[1..])
  }

  function SlotKeys(s: seq<AvailabilitySlot>): (ks: seq<SlotKey>)
    reads s
    ensures |ks| == |s| && forall i :: 0 <= i < |s| ==> ks[i] == s[i].Key()
  {
    if s == [] then [] else [s[0].Key()] + SlotKeys(s[1..])
  }

  /** A `ProfessionalExpertise` entity. */
  class ProfessionalExpertise {
    var id: Option<Id>
    var professional: Professional?
    var expertiseType: string
    var yearsExperience: Option<int>
    var certificationName: Option<string>
    /** The audit timestamp, unset until the entry is first saved. */
    var createdAt: Option<int>

    /** Built by the builder: no id, no owner and no timestamp yet. */
    constructor (expertiseType: string, yearsExperience: Option<int>, certificationName: Option<string>)
      ensures id.None? && professional == null && createdAt.None?
      ensures this.expertiseType == expertiseType && this.yearsExperience == yearsExperience
      ensures this.certificationName == certificationName
    {
      id, professional, createdAt := None, null, None;
      this.expertiseType := expertiseType;
      this.yearsExperience := yearsExperience;
      this.certificationName := certificationName;
    }

    function Key(): ExpertiseKey
      reads this
    {
      ExpertiseKey(id, professional, expertiseType, yearsExperience, certificationName, createdAt)
    }
  }

  /** An `AvailabilitySlot` entity; a slot is built unbooked. */
  class AvailabilitySlot {
    var id: Option<Id>
    var professional: Professional?
    var date: Date
    var startTime: Time
    var endTime: Time
    var isBooked: bool
    /** The audit timestamp, unset until the slot is first saved. */
    var createdAt: Option<int>

    /** Built by the builder: no id, no owner, no timestamp, unbooked. */
    constructor (date: Date, startTime: Time, endTime: Time)
      ensures id.None? && professional == null && createdAt.None? && !isBooked
      ensures this.date == date && this.startTime == startTime && this.endTime == endTime
    {
      id, professional, createdAt := None, null, None;
      this.date := date;
      this.startTime := startTime;
      this.endTime := endTime;
      isBooked := false;
    }

    function Key(): SlotKey
      reads this
    {
      SlotKey(id, professional, date, startTime, endTime, isBooked, createdAt)
    }
  }

  /** A `Professional` entity with its two owned child lists. */
  class Professional {
    var userId: Uuid
    var companyName: Option<string>
    var email: string
    var phone: Option<string>
    var address: Option<string>
    var latitude: Option<real>
    var longitude: Option<real>
    var serviceRadiusKm: Option<int>
    var hourlyRate: Option<real>
    var yearsExperience: Option<int>
    var rating: Option<real>
    var totalJobsCompleted: Option<int>
    var isVerified: bool
    var expertiseList: seq<ProfessionalExpertise>
    var availabilitySlots: seq<AvailabilitySlot>

    /** Every listed child points back to this professional. */
    ghost predicate OwnsChildren()
      reads this, expertiseList, availabilitySlots
    {
      (forall e :: e in expertiseList ==> e.professional == this) &&
      (forall s :: s in availabilitySlots ==> s.professional == this)
    }

    /** The builder with only the identifying fields set: every other field takes its default. */
    constructor (userId: Uuid, companyName: Option<string>, email: string, phone: Option<string>)
      ensures this.userId == userId && this.companyName == companyName
      ensures this.email == email && this.phone == phone
      ensures address.None? && latitude.None? && longitude.None?
      ensures hourlyRate.None? && yearsExperience.None?
      ensures serviceRadiusKm == Some(50)
      ensures rating == Some(0.0) && totalJobsCompleted == Some(0) && !isVerified
      ensures expertiseList == [] && availabilitySlots == []
      ensures OwnsChildren()
    {
      this.userId := userId;
      this.companyName := companyName;
      this.email := email;
      this.phone := phone;
      address, latitude, longitude := None, None, None;
      hourlyRate, yearsExperience := None, None;
      serviceRadiusKm := Some(50);
      rating, totalJobsCompleted, isVerified := Some(0.0), Some(0), false;
      expertiseList, availabilitySlots := [], [];
    }

    /** `addExpertise`: appends the entry and makes this professional its owner. */
    method AddExpertise(expertise: ProfessionalExpertise)
      modifies this`expertiseList, expertise`professional
      ensures expertiseList == old(expertiseList) + [expertise]
      ensures availabilitySlots == old(availabilitySlots)
      ensures expertise.professional == this
      ensures old(OwnsChildren()) ==> OwnsChildren()
    {
      expertiseList := expertiseList + [expertise];
      expertise.professional := this;
    }

    /**
     * `removeExpertise`: drops the first listed entry equal to the argument under
     * Lombok's field-by-field `equals`, which need not be the argument itself,
     * and clears the argument's owner whether or not anything was dropped.
     * Ownership is kept when the argument is no longer listed afterwards.
     */
    method RemoveExpertise(expertise: ProfessionalExpertise)
      modifies this`expertiseList, expertise`professional
      ensures expertiseList ==
        RemoveFirstBy(old(expertiseList), old(ExpertiseKeys(expertiseList)), old(expertise.Key()))
      ensures availabilitySlots == old(availabilitySlots)
      ensures expertise.professional == null
      ensures old(OwnsChildren()) && expertise !in expertiseList ==> OwnsChildren()
    {
      expertiseList := RemoveFirstBy(expertiseList, ExpertiseKeys(expertiseList), expertise.Key());
      expertise.professional := null;
    }

    /** `addAvailabilitySlot`: appends the slot and makes this professional its owner. */
    method AddAvailabilitySlot(slot: AvailabilitySlot)
      modifies this`availabilitySlots, slot`professional
      ensures availabilitySlots == old(availabilitySlots) + [slot]
      ensures expertiseList == old(expertiseList)
      ensures slot.professional == this
      ensures old(OwnsChildren()) ==> OwnsChildren()
    {
      availabilitySlots := availabilitySlots + [slot];
      slot.professional := this;
    }

    /**
     * `removeAvailabilitySlot`: drops the first listed slot equal to the argument
     * under Lombok's `equals` and clears the argument's owner.
     */
    method RemoveAvailabilitySlot(slot: AvailabilitySlot)
      modifies this`availabilitySlots, slot`professional
      ensures availabilitySlots ==
        RemoveFirstBy(old(availabilitySlots), old(SlotKeys(availabilitySlots)), old(slot.Key()))
      ensures expertiseList == old(expertiseList)
      ensures slot.professional == null
      ensures old(OwnsChildren()) && slot !in availabilitySlots ==> OwnsChildren()
    {
      availabilitySlots := RemoveFirstBy(availabilitySlots, SlotKeys(availabilitySlots), slot.Key());
      slot.professional := null;
    }
  }

  /**
   * Two new entries with the same fields, both added: removing the second drops
   * the first, so the second stays listed with no owner and the list no longer
   * points back consistently.
   */
  method RemoveTwinLeavesOrphan(userId: Uuid, expertiseType: string)
    returns (p: Professional, e1: ProfessionalExpertise, e2: ProfessionalExpertise)
    ensures fresh(p) && fresh(e1) && fresh(e2) && e1 != e2
    ensures p.expertiseList == [e2]
    ensures e2.professional == null && !p.OwnsChildren()
  {
    p := new Professional(userId, None, "", None);
    e1 := new ProfessionalExpertise(expertiseType, None, None);
    e2 := new ProfessionalExpertise(expertiseType, None, None);
    p.AddExpertise(e1);
    p.AddExpertise(e2);
    assert ExpertiseKeys(p.expertiseList)[0] == e2.Key();
    p.RemoveExpertise(e2);
    assert p.expertiseList == [e2];
  }
}