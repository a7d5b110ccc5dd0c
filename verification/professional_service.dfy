/**
 * ProfessionalService: registering a professional, partial updates, the
 * expertise and availability a professional lists, the lookups, and deletion.
 */
module ProfessionalService {
  import opened Wrappers
  import opened ValidationUtils
  import opened GeoUtils
  import opened Domain
  import opened Store
  import opened Setters

  /** `CreateProfessionalRequest`, which also carries the fields of an update. */
  datatype ProfessionalRequest = ProfessionalRequest(
    userId: Option<Uuid>,
    companyName: Option<string>,
    email: Option<string>,
    phone: Option<string>,
    address: Option<string>,
    latitude: Option<real>,
    longitude: Option<real>,
    serviceRadiusKm: Option<int>,
    hourlyRate: Option<real>,
    yearsExperience: Option<int>)

  /** `ProfessionalDto`: a stored professional and its id. */
  datatype ProfessionalView = ProfessionalView(id: Id, professional: ProfessionalRow)

  /** `existsByEmail`: an exact, case-sensitive comparison. */
  predicate EmailTaken(profs: map<Id, ProfessionalRow>, email: string) {
    exists id | id in profs :: profs[id].email == email
  }

  /** `existsByUserId`. */
  predicate UserIdTaken(profs: map<Id, ProfessionalRow>, userId: Uuid) {
    exists id | id in profs :: profs[id].userId == userId
  }

  // -------------------------------------------------------------- create

  /** Why `createProfessional` refuses a request, in the order it checks; `None` when it accepts it. */
  function CreateProfessionalError(profs: map<Id, ProfessionalRow>, req: ProfessionalRequest): (err: Option<Error>)
    ensures err.None? <==>
      IsValidEmail(req.email) && !EmailTaken(profs, req.email.value) &&
      (req.userId.Some? ==> !UserIdTaken(profs, req.userId.value)) &&
      (req.latitude.Some? || req.longitude.Some? ==> IsValidLatitude(req.latitude) && IsValidLongitude(req.longitude))
  {
    if !IsValidEmail(req.email) then Some(Invalid("Invalid email format"))
    else if EmailTaken(profs, req.email.value) then Some(Invalid("Professional with email already exists"))
    else if req.userId.Some? && UserIdTaken(profs, req.userId.value) then
      Some(Invalid("Professional with userId already exists"))
    else if (req.latitude.Some? || req.longitude.Some?) && !IsValidLatitude(req.latitude) then
      Some(Invalid("Invalid latitude value"))
    else if (req.latitude.Some? || req.longitude.Some?) && !IsValidLongitude(req.longitude) then
      Some(Invalid("Invalid longitude value"))
    else None
  }

  /**
   * The professional `createProfessional` builds: the email lower-cased and
   * trimmed, the text fields trimmed, the user id generated when absent, a
   * 50 km radius by default, and the entity's own defaults for the rest.
   */
  function NewProfessional(req: ProfessionalRequest, freshUserId: Uuid): (p: ProfessionalRow)
    ensures p.userId == if req.userId.Some? then req.userId.value else freshUserId
    ensures forall i :: 0 <= i < |p.email| ==> !IsAsciiUpper(p.email[i])
    ensures p.latitude == req.latitude && p.longitude == req.longitude
    ensures p.serviceRadiusKm.Some? && (req.serviceRadiusKm.None? ==> p.serviceRadiusKm == Some(50))
    ensures p.rating == Some(0.0) && p.totalJobsCompleted == Some(0) && !p.isVerified
    ensures p.expertiseList == [] && p.availabilitySlots == []
  {
    NormalizedEmailLowerCase(req.email.GetOr(""));
    ProfessionalRow(req.userId.GetOr(freshUserId), Sanitize(req.companyName), Trim(ToLower(req.email.GetOr(""))),
                    Sanitize(req.phone), Sanitize(req.address), req.latitude, req.longitude,
                    Some(req.serviceRadiusKm.GetOr(50)), req.hourlyRate, req.yearsExperience,
                    Some(0.0), Some(0), false, [], [])
  }

  /** Whether a new row would break the table's unique email or user id column. */
  predicate Clashes(profs: map<Id, ProfessionalRow>, p: ProfessionalRow) {
    exists id | id in profs :: profs[id].email == p.email || profs[id].userId == p.userId
  }

  /** A row clashing with no stored row keeps the email and user id columns unique. */
  lemma InsertKeepsKeysUnique(profs: map<Id, ProfessionalRow>, id: Id, p: ProfessionalRow)
    requires ProfessionalKeysUnique(profs) && id !in profs && !Clashes(profs, p)
    ensures ProfessionalKeysUnique(profs[id := p])
  {
  }

  /** `professionalRepository.save` of a new row: the unique email and user id columns refuse a clash. */
  method SaveProfessional(db: Database, p: ProfessionalRow) returns (r: Result<ProfessionalView>)
    requires db.Valid()
    modifies db`professionals, db`nextProfessionalId
    ensures db.Valid()
    ensures Clashes(old(db.professionals), p) ==>
      r == Failure(Conflict("duplicate email or user id")) &&
      db.professionals == old(db.professionals) && db.nextProfessionalId == old(db.nextProfessionalId)
    ensures !Clashes(old(db.professionals), p) ==>
      db.professionals == old(db.professionals)[old(db.nextProfessionalId) := p] &&
      db.nextProfessionalId == old(db.nextProfessionalId) + 1 &&
      r == Success(ProfessionalView(old(db.nextProfessionalId), p))
  {
    if Clashes(db.professionals, p) {
      return Failure(Conflict("duplicate email or user id"));
    }
    var id := db.nextProfessionalId;
    InsertKeepsKeysUnique(db.professionals, id, p);
    db.professionals := db.professionals[id := p];
    db.nextProfessionalId := id + 1;
    r := Success(ProfessionalView(id, p));
  }

  /** The checks `createProfessional` makes before building the professional, in their order. */
  method CheckProfessionalRequest(profs: map<Id, ProfessionalRow>, req: ProfessionalRequest) returns (err: Option<Error>)
    ensures err == CreateProfessionalError(profs, req)
  {
    if !IsValidEmail(req.email) {
      return Some(Invalid("Invalid email format"));
    }
    if EmailTaken(profs, req.email.value) {
      return Some(Invalid("Professional with email already exists"));
    }
    if req.userId.Some? && UserIdTaken(profs, req.userId.value) {
      return Some(Invalid("Professional with userId already exists"));
    }
    if req.latitude.Some? || req.longitude.Some? {
      if !IsValidLatitude(req.latitude) {
        return Some(Invalid("Invalid latitude value"));
      }
      if !IsValidLongitude(req.longitude) {
        return Some(Invalid("Invalid longitude value"));
      }
    }
    err := None;
  }

  /**
   * `createProfessional`. The service's own checks come first; the insert
   * then fails when the table's unique columns refuse the row. `freshUserId`
   * stands for `UUID.randomUUID()`.
   */
  method CreateProfessional(db: Database, req: ProfessionalRequest, freshUserId: Uuid)
    returns (r: Result<ProfessionalView>)
    requires db.Valid()
    modifies db`professionals, db`nextProfessionalId
    ensures db.Valid()
    ensures var err := CreateProfessionalError(old(db.professionals), req);
            var p := NewProfessional(req, freshUserId);
      if err.Some? then
        r == Failure(err.value) &&
        db.professionals == old(db.professionals) && db.nextProfessionalId == old(db.nextProfessionalId)
      else if Clashes(old(db.professionals), p) then
        r == Failure(Conflict("duplicate email or user id")) &&
        db.professionals == old(db.professionals) && db.nextProfessionalId == old(db.nextProfessionalId)
      else
        db.professionals == old(db.professionals)[old(db.nextProfessionalId) := p] &&
        db.nextProfessionalId == old(db.nextProfessionalId) + 1 &&
        r == Success(ProfessionalView(old(db.nextProfessionalId), p))
  {
    var err := CheckProfessionalRequest(db.professionals, req);
    if err.Some? {
      return Failure(err.value);
    }
    var p := NewProfessional(req, freshUserId);
    r := SaveProfessional(db, p);
  }

  /**
   * A professional built from a request with a valid address and valid
   * coordinates, as every request `createProfessional` accepts has: a valid
   * address, and a position only when both coordinates are valid.
   */
  lemma NewProfessionalShape(req: ProfessionalRequest, freshUserId: Uuid)
    requires IsValidEmail(req.email)
    requires req.latitude.Some? || req.longitude.Some? ==> IsValidLatitude(req.latitude) && IsValidLongitude(req.longitude)
    ensures var p := NewProfessional(req, freshUserId);
      IsValidEmail(Some(p.email)) &&
      (p.latitude.Some? || p.longitude.Some? ==> IsValidLatitude(p.latitude) && IsValidLongitude(p.longitude))
  {
    NormalizedEmailValid(req.email.value);
  }

  /**
   * The duplicate check compares the raw input, while the row holds the
   * lower-cased address: a request differing from a stored address only in
   * case passes every check of the service and is refused by the table.
   */
  lemma CaseVariantEmailReachesTable(profs: map<Id, ProfessionalRow>, req: ProfessionalRequest, freshUserId: Uuid,
                                     id: Id)
    requires CreateProfessionalError(profs, req).None?
    requires id in profs && profs[id].email == Trim(ToLower(req.email.value))
    ensures Clashes(profs, NewProfessional(req, freshUserId))
  {
  }

  /** "A@b.co" is a valid address that differs from "a@b.co" and is stored as it. */
  lemma MixedCaseAddress(raw: string, low: string)
    requires raw == "A@b.co" && low == "a@b.co"
    ensures IsValidEmail(Some(raw)) && raw != low && Trim(ToLower(raw)) == low
  {
    SampleMatchesEmail(raw);
    SampleLowers(raw, low);
    TrimVisibleEnds(raw);
    TrimVisibleEnds(low);
  }

  /** "A@b.co" matches the address pattern: local part "A", domain "b", top-level domain "co". */
  lemma SampleMatchesEmail(raw: string)
    requires raw == "A@b.co"
    ensures MatchesEmail(raw)
  {
    var r := "A@b.co";
    assert IndexOf(r, '@') == 1;
    assert LastIndexOf(r, '.') == 3;
    assert r[..1] == "A" && r[2..3] == "b" && r[4..] == "co";
  }

  /** "A@b.co" lower-cases to the different string "a@b.co". */
  lemma SampleLowers(raw: string, low: string)
    requires raw == "A@b.co" && low == "a@b.co"
    ensures raw != low && ToLower(raw) == low
  {
    var r, l := "A@b.co", "a@b.co";
    assert r[0] != l[0];
    assert ToLower(r) == l;
  }

  /**
   * With one professional stored, a request whose address differs from the
   * stored one but normalises to it passes every check of the service and is
   * refused as a duplicate; `MixedCaseAddress` gives such a pair.
   */
  lemma CaseVariantEmailExample(row: ProfessionalRow, raw: string, freshUserId: Uuid)
    requires IsValidEmail(Some(raw)) && raw != row.email && Trim(ToLower(raw)) == row.email
    ensures var req := ProfessionalRequest(None, None, Some(raw), None, None, None, None, None, None, None);
      CreateProfessionalError(map[1 := row], req).None? && Clashes(map[1 := row], NewProfessional(req, freshUserId))
  {
    var req := ProfessionalRequest(None, None, Some(raw), None, None, None, None, None, None, None);
    CaseVariantEmailAccepted(row, req);
    CaseVariantEmailReachesTable(map[1 := row], req, freshUserId, 1);
  }

  /** The request of `CaseVariantEmailExample` passes every check of the service. */
  lemma CaseVariantEmailAccepted(row: ProfessionalRow, req: ProfessionalRequest)
    requires req.email.Some? && IsValidEmail(req.email) && req.email.value != row.email
    requires req.userId.None? && req.latitude.None? && req.longitude.None?
    ensures CreateProfessionalError(map[1 := row], req).None?
  {
    OnlyAddressTaken(row, req.email.value);
  }

  /** With one professional stored, only its own address is taken. */
  lemma OnlyAddressTaken(row: ProfessionalRow, email: string)
    ensures EmailTaken(map[1 := row], email) <==> email == row.email
  {
    var profs := map[1 := row];
    assert profs.Keys == {1};
    if email == row.email {
      assert profs[1].email == email;
    }
  }

  // -------------------------------------------------------------- update

  /** The contact setters: company name, phone, address. */
  function ContactUpdated(p: ProfessionalRow, req: ProfessionalRequest): ProfessionalRow {
    p.(companyName := TextUpdate(p.companyName, req.companyName),
       phone := TextUpdate(p.phone, req.phone),
       address := TextUpdate(p.address, req.address))
  }

  /** The position setter: a pair given in full must be valid and replaces the position. */
  function PositionUpdated(p: ProfessionalRow, req: ProfessionalRequest): Result<ProfessionalRow> {
    if req.latitude.None? || req.longitude.None? then Success(p)
    else if !IsValidLatitude(req.latitude) then Failure(Invalid("Invalid latitude value"))
    else if !IsValidLongitude(req.longitude) then Failure(Invalid("Invalid longitude value"))
    else Success(p.(latitude := req.latitude, longitude := req.longitude))
  }

  /** The setters of the terms: radius, hourly rate, years of experience. */
  function TermsUpdated(p: ProfessionalRow, req: ProfessionalRequest): ProfessionalRow {
    p.(serviceRadiusKm := ValueUpdate(p.serviceRadiusKm, req.serviceRadiusKm),
       hourlyRate := ValueUpdate(p.hourlyRate, req.hourlyRate),
       yearsExperience := ValueUpdate(p.yearsExperience, req.yearsExperience))
  }

  /**
   * The professional after `updateProfessional`: the position changes only
   * when both coordinates are given, and then both must be valid. Email, user
   * id, rating, job count, verification and the lists never change.
   */
  function UpdatedProfessional(p: ProfessionalRow, req: ProfessionalRequest): (r: Result<ProfessionalRow>)
    ensures r.Failure? <==>
      req.latitude.Some? && req.longitude.Some? && !(IsValidLatitude(req.latitude) && IsValidLongitude(req.longitude))
    ensures r.Success? ==>
      r.value.email == p.email && r.value.userId == p.userId && r.value.rating == p.rating &&
      r.value.totalJobsCompleted == p.totalJobsCompleted && r.value.isVerified == p.isVerified &&
      r.value.expertiseList == p.expertiseList && r.value.availabilitySlots == p.availabilitySlots
  {
    match PositionUpdated(ContactUpdated(p, req), req)
    case Failure(e) => Failure(e)
    case Success(q) => Success(TermsUpdated(q, req))
  }

  /**
   * Each field the update may touch changes only to what the request asks: a
   * text field only to a non-blank input, trimmed; the position only to a
   * pair given in full; a number only when given.
   */
  lemma UpdateChangesOnlyRequested(p: ProfessionalRow, req: ProfessionalRequest)
    requires UpdatedProfessional(p, req).Success?
    ensures var q := UpdatedProfessional(p, req).value;
      (q.companyName != p.companyName ==> IsNotEmpty(req.companyName) && q.companyName == Sanitize(req.companyName)) &&
      (q.phone != p.phone ==> IsNotEmpty(req.phone) && q.phone == Sanitize(req.phone)) &&
      (q.address != p.address ==> IsNotEmpty(req.address) && q.address == Sanitize(req.address))
    ensures var q := UpdatedProfessional(p, req).value;
      ((q.latitude, q.longitude) != (p.latitude, p.longitude) ==>
         req.latitude.Some? && req.longitude.Some? && q.latitude == req.latitude && q.longitude == req.longitude) &&
      (q.serviceRadiusKm != p.serviceRadiusKm ==> q.serviceRadiusKm == req.serviceRadiusKm) &&
      (q.hourlyRate != p.hourlyRate ==> q.hourlyRate == req.hourlyRate) &&
      (q.yearsExperience != p.yearsExperience ==> q.yearsExperience == req.yearsExperience)
  {
  }

  /** Applying the same update twice changes nothing more. */
  lemma UpdateIdempotent(p: ProfessionalRow, req: ProfessionalRequest)
    requires UpdatedProfessional(p, req).Success?
    ensures UpdatedProfessional(UpdatedProfessional(p, req).value, req) == UpdatedProfessional(p, req)
  {
  }

  /** A request with nothing to change leaves the professional as it was. */
  lemma EmptyUpdateKeeps(p: ProfessionalRow, req: ProfessionalRequest)
    requires !IsNotEmpty(req.companyName) && !IsNotEmpty(req.phone) && !IsNotEmpty(req.address)
    requires req.latitude.None? && req.serviceRadiusKm.None? && req.hourlyRate.None? && req.yearsExperience.None?
    ensures UpdatedProfessional(p, req) == Success(p)
  {
  }

  method ApplyContact(p0: ProfessionalRow, req: ProfessionalRequest) returns (p: ProfessionalRow)
    ensures p == ContactUpdated(p0, req)
  {
    p := p0;
    if IsNotEmpty(req.companyName) {
      p := p.(companyName := Sanitize(req.companyName));
    }
    if IsNotEmpty(req.phone) {
      p := p.(phone := Sanitize(req.phone));
    }
    if IsNotEmpty(req.address) {
      p := p.(address := Sanitize(req.address));
    }
  }

  method ApplyTerms(p0: ProfessionalRow, req: ProfessionalRequest) returns (p: ProfessionalRow)
    ensures p == TermsUpdated(p0, req)
  {
    p := p0;
    if req.serviceRadiusKm.Some? {
      p := p.(serviceRadiusKm := req.serviceRadiusKm);
    }
    if req.hourlyRate.Some? {
      p := p.(hourlyRate := req.hourlyRate);
    }
    if req.yearsExperience.Some? {
      p := p.(yearsExperience := req.yearsExperience);
    }
  }

  /** The setters of `updateProfessional`, applied in order to the loaded professional. */
  method ApplyUpdate(p0: ProfessionalRow, req: ProfessionalRequest) returns (r: Result<ProfessionalRow>)
    ensures r == UpdatedProfessional(p0, req)
  {
    var p := ApplyContact(p0, req);
    if req.latitude.Some? && req.longitude.Some? {
      if !IsValidLatitude(req.latitude) {
        return Failure(Invalid("Invalid latitude value"));
      }
      if !IsValidLongitude(req.longitude) {
        return Failure(Invalid("Invalid longitude value"));
      }
      p := p.(latitude := req.latitude, longitude := req.longitude);
    }
    assert PositionUpdated(ContactUpdated(p0, req), req) == Success(p);
    p := ApplyTerms(p, req);
    r := Success(p);
  }

  /** A row keeping its email and user id keeps the columns unique. */
  lemma ReplaceKeepsKeysUnique(profs: map<Id, ProfessionalRow>, id: Id, q: ProfessionalRow)
    requires ProfessionalKeysUnique(profs) && id in profs
    requires q.email == profs[id].email && q.userId == profs[id].userId
    ensures ProfessionalKeysUnique(profs[id := q])
  {
  }

  /**
   * `updateProfessional`: an invalid position aborts the transaction, so
   * none of the fields set before it is kept.
   */
  method UpdateProfessional(db: Database, id: Id, req: ProfessionalRequest) returns (r: Result<ProfessionalView>)
    requires db.Valid()
    modifies db`professionals
    ensures db.Valid()
    ensures id !in old(db.professionals) ==>
      r == Failure(NotFound("Professional")) && db.professionals == old(db.professionals)
    ensures id in old(db.professionals) && UpdatedProfessional(old(db.professionals)[id], req).Failure? ==>
      r == Failure(UpdatedProfessional(old(db.professionals)[id], req).error) &&
      db.professionals == old(db.professionals)
    ensures id in old(db.professionals) && UpdatedProfessional(old(db.professionals)[id], req).Success? ==>
      var q := UpdatedProfessional(old(db.professionals)[id], req).value;
      db.professionals == old(db.professionals)[id := q] && r == Success(ProfessionalView(id, q))
  {
    if id !in db.professionals {
      return Failure(NotFound("Professional"));
    }
    var updated := ApplyUpdate(db.professionals[id], req);
    if updated.Failure? {
      return Failure(updated.error);
    }
    ReplaceKeepsKeysUnique(db.professionals, id, updated.value);
    db.professionals := db.professionals[id := updated.value];
    r := Success(ProfessionalView(id, updated.value));
  }

  // ---------------------------------------------------------- expertise

  /** The expertise `addExpertise` stores: its type upper-cased and trimmed, its certification trimmed. */
  function NewExpertise(expertiseType: string, yearsExperience: Option<int>, certificationName: Option<string>)
    : (e: Expertise)
    ensures forall i :: 0 <= i < |e.expertiseType| ==> !IsAsciiLower(e.expertiseType[i])
    ensures e.expertiseType == ToUpper(Trim(expertiseType))
    ensures EqualsIgnoreCase(e.expertiseType, Trim(expertiseType))
  {
    TrimUpperCommute(expertiseType);
    UpperCaseEqualsIgnoringCase(Trim(expertiseType));
    Expertise(Trim(ToUpper(expertiseType)), yearsExperience, Sanitize(certificationName))
  }

  /** `addExpertise`: appends the new expertise to the professional's list. */
  method AddExpertise(db: Database, professionalId: Id, expertiseType: string, yearsExperience: Option<int>,
                      certificationName: Option<string>) returns (r: Result<Expertise>)
    requires db.Valid()
    modifies db`professionals
    ensures db.Valid()
    ensures professionalId !in old(db.professionals) ==>
      r == Failure(NotFound("Professional")) && db.professionals == old(db.professionals)
    ensures professionalId in old(db.professionals) ==>
      var p := old(db.professionals)[professionalId];
      var e := NewExpertise(expertiseType, yearsExperience, certificationName);
      r == Success(e) &&
      db.professionals == old(db.professionals)[professionalId := p.(expertiseList := p.expertiseList + [e])]
  {
    if professionalId !in db.professionals {
      return Failure(NotFound("Professional"));
    }
    var p := db.professionals[professionalId];
    var e := NewExpertise(expertiseType, yearsExperience, certificationName);
    db.professionals := db.professionals[professionalId := p.(expertiseList := p.expertiseList + [e])];
    r := Success(e);
  }

  /** `getProfessionalExpertise`: the professional's expertise, in the order it was added. */
  function GetProfessionalExpertise(profs: map<Id, ProfessionalRow>, professionalId: Id): (r: Result<seq<Expertise>>)
    ensures professionalId !in profs <==> r == Failure(NotFound("Professional"))
    ensures r.Success? ==> r.value == profs[professionalId].expertiseList
  {
    if professionalId !in profs then Failure(NotFound("Professional")) else Success(profs[professionalId].expertiseList)
  }

  // ------------------------------------------------------- availability

  /**
   * `addAvailability`: a slot may not end before it starts (a slot ending
   * when it starts is accepted); the new slot is unbooked.
   */
  method AddAvailability(db: Database, professionalId: Id, date: Date, startTime: Time, endTime: Time)
    returns (r: Result<Slot>)
    requires db.Valid()
    modifies db`professionals
    ensures db.Valid()
    ensures professionalId !in old(db.professionals) ==>
      r == Failure(NotFound("Professional")) && db.professionals == old(db.professionals)
    ensures professionalId in old(db.professionals) && endTime < startTime ==>
      r == Failure(Invalid("End time must be after start time")) && db.professionals == old(db.professionals)
    ensures professionalId in old(db.professionals) && startTime <= endTime ==>
      var p := old(db.professionals)[professionalId];
      var slot := Slot(date, startTime, endTime, false);
      r == Success(slot) &&
      db.professionals == old(db.professionals)[professionalId := p.(availabilitySlots := p.availabilitySlots + [slot])]
  {
    if professionalId !in db.professionals {
      return Failure(NotFound("Professional"));
    }
    if endTime < startTime {
      return Failure(Invalid("End time must be after start time"));
    }
    var p := db.professionals[professionalId];
    var slot := Slot(date, startTime, endTime, false);
    db.professionals := db.professionals[professionalId := p.(availabilitySlots := p.availabilitySlots + [slot])];
    r := Success(slot);
  }

  /** The slots that satisfy `keep`, in order. */
  function SlotsWhere(slots: seq<Slot>, keep: Slot -> bool): (r: seq<Slot>)
    ensures |r| <= |slots|
    ensures forall i :: 0 <= i < |r| ==> r[i] in slots && keep(r[i])
    ensures forall i :: 0 <= i < |slots| && keep(slots[i]) ==> slots[i] in r
  {
    if slots == [] then []
    else SlotsWhere(slots[..|slots| - 1], keep) + (if keep(slots[|slots| - 1]) then [slots[|slots| - 1]] else [])
  }

  lemma {:induction false} SlotsWhereAll(slots: seq<Slot>, keep: Slot -> bool)
    requires forall i :: 0 <= i < |slots| ==> keep(slots[i])
    ensures SlotsWhere(slots, keep) == slots
  {
    if slots != [] {
      SlotsWhereAll(slots[..|slots| - 1], keep);
    }
  }

  function OnDate(date: Date): Slot -> bool {
    (s: Slot) => s.date == date
  }

  function Unbooked(): Slot -> bool {
    (s: Slot) => !s.isBooked
  }

  function FreeOnDate(date: Date): Slot -> bool {
    (s: Slot) => s.date == date && !s.isBooked
  }

  /** `getProfessionalAvailability`: the slots on the given date, or every slot when no date is given. */
  function GetProfessionalAvailability(profs: map<Id, ProfessionalRow>, professionalId: Id, date: Option<Date>)
    : (r: Result<seq<Slot>>)
    ensures professionalId !in profs <==> r == Failure(NotFound("Professional"))
    ensures r.Success? && date.None? ==> r.value == profs[professionalId].availabilitySlots
    ensures r.Success? && date.Some? ==>
      var slots := profs[professionalId].availabilitySlots;
      (forall i :: 0 <= i < |r.value| ==> r.value[i] in slots && r.value[i].date == date.value) &&
      (forall i :: 0 <= i < |slots| && slots[i].date == date.value ==> slots[i] in r.value)
  {
    if professionalId !in profs then Failure(NotFound("Professional"))
    else
      var slots := profs[professionalId].availabilitySlots;
      if date.None? then Success(slots) else Success(SlotsWhere(slots, OnDate(date.value)))
  }

  /**
   * `getAvailableSlots`: the unbooked slots on the date. Without a date the
   * query compares with null and matches nothing.
   */
  function GetAvailableSlots(profs: map<Id, ProfessionalRow>, professionalId: Id, date: Option<Date>)
    : (r: Result<seq<Slot>>)
    ensures professionalId !in profs <==> r == Failure(NotFound("Professional"))
    ensures r.Success? && date.None? ==> r.value == []
    ensures r.Success? && date.Some? ==>
      var slots := profs[professionalId].availabilitySlots;
      (forall i :: 0 <= i < |r.value| ==> r.value[i] in slots && r.value[i].date == date.value && !r.value[i].isBooked) &&
      (forall i :: 0 <= i < |slots| && slots[i].date == date.value && !slots[i].isBooked ==> slots[i] in r.value)
  {
    if professionalId !in profs then Failure(NotFound("Professional"))
    else if date.None? then Success([])
    else Success(SlotsWhere(profs[professionalId].availabilitySlots, FreeOnDate(date.value)))
  }

  /** The available slots of a date are exactly its slots that are not booked. */
  lemma AvailableAmongAvailability(profs: map<Id, ProfessionalRow>, professionalId: Id, date: Date)
    requires professionalId in profs
    ensures var all := GetProfessionalAvailability(profs, professionalId, Some(date)).value;
      GetAvailableSlots(profs, professionalId, Some(date)).value == SlotsWhere(all, Unbooked())
  {
    SlotsWhereFused(profs[professionalId].availabilitySlots, date);
  }

  lemma {:induction false} SlotsWhereFused(slots: seq<Slot>, date: Date)
    ensures SlotsWhere(slots, FreeOnDate(date)) == SlotsWhere(SlotsWhere(slots, OnDate(date)), Unbooked())
  {
    if slots != [] {
      var init, last := slots[..|slots| - 1], slots[|slots| - 1];
      SlotsWhereFused(init, date);
      var on := SlotsWhere(init, OnDate(date));
      assert FreeOnDate(date)(last) == (last.date == date && !last.isBooked);
      assert SlotsWhere(slots, FreeOnDate(date)) ==
             SlotsWhere(init, FreeOnDate(date)) + (if last.date == date && !last.isBooked then [last] else []);
      assert SlotsWhere(slots, OnDate(date)) == on + (if last.date == date then [last] else []);
      if last.date == date {
        var on' := on + [last];
        assert on'[..|on'| - 1] == on && on'[|on'| - 1] == last;
        assert SlotsWhere(on', Unbooked()) == SlotsWhere(on, Unbooked()) + (if !last.isBooked then [last] else []);
      } else {
        assert SlotsWhere(slots, OnDate(date)) == on;
      }
    }
  }

  // ------------------------------------------------------------- lookups

  /** `getProfessionalById`. */
  function GetProfessionalById(profs: map<Id, ProfessionalRow>, id: Id): (r: Result<ProfessionalView>)
    ensures id !in profs <==> r == Failure(NotFound("Professional"))
    ensures r.Success? ==> r.value == ProfessionalView(id, profs[id])
  {
    if id !in profs then Failure(NotFound("Professional")) else Success(ProfessionalView(id, profs[id]))
  }

  /** `getProfessionalByUserId`: the professional holding the user id, or not found. */
  function GetProfessionalByUserId(profs: map<Id, ProfessionalRow>, next: Id, userId: Uuid)
    : (r: Result<ProfessionalView>)
    requires KeysBelow(profs, next)
    ensures r.Failure? <==> !UserIdTaken(profs, userId)
    ensures r.Success? ==> r.value.id in profs && r.value.professional == profs[r.value.id] &&
                           r.value.professional.userId == userId
  {
    var ids := Select(profs, next, (p: ProfessionalRow) => p.userId == userId);
    if ids == [] then Failure(NotFound("Professional"))
    else Success(ProfessionalView(ids[0], profs[ids[0]]))
  }

  /** With unique user ids, the lookup finds the only professional holding it. */
  lemma UserIdLookupUnique(profs: map<Id, ProfessionalRow>, next: Id, id: Id)
    requires KeysBelow(profs, next) && ProfessionalKeysUnique(profs) && id in profs
    ensures GetProfessionalByUserId(profs, next, profs[id].userId) == Success(ProfessionalView(id, profs[id]))
  {
  }

  /** The rows of the ids, as views. */
  function Views(profs: map<Id, ProfessionalRow>, ids: seq<Id>): (vs: seq<ProfessionalView>)
    requires forall i :: 0 <= i < |ids| ==> ids[i] in profs
    ensures |vs| == |ids|
    ensures forall i :: 0 <= i < |ids| ==> vs[i] == ProfessionalView(ids[i], profs[ids[i]])
  {
    seq(|ids|, i requires 0 <= i < |ids| => ProfessionalView(ids[i], profs[ids[i]]))
  }

  /** `getAllProfessionals`, in id order. */
  function GetAllProfessionals(profs: map<Id, ProfessionalRow>, next: Id): (vs: seq<ProfessionalView>)
    ensures forall i :: 0 <= i < |vs| ==> vs[i].id in profs && vs[i].professional == profs[vs[i].id]
    ensures forall i, j :: 0 <= i < j < |vs| ==> vs[i].id < vs[j].id
    ensures forall id :: id in profs && id < next ==> exists i :: 0 <= i < |vs| && vs[i].id == id
  {
    var ids := Select(profs, next, (p: ProfessionalRow) => true);
    var vs := Views(profs, ids);
    assert forall id :: id in ids ==> exists i :: 0 <= i < |vs| && vs[i].id == id;
    vs
  }

  /** `getVerifiedProfessionals`: the verified professionals, in id order. */
  function GetVerifiedProfessionals(profs: map<Id, ProfessionalRow>, next: Id): (vs: seq<ProfessionalView>)
    ensures forall i :: 0 <= i < |vs| ==>
      vs[i].id in profs && vs[i].professional == profs[vs[i].id] && vs[i].professional.isVerified
    ensures forall i, j :: 0 <= i < j < |vs| ==> vs[i].id < vs[j].id
    ensures forall id :: id in profs && id < next && profs[id].isVerified ==> exists i :: 0 <= i < |vs| && vs[i].id == id
  {
    var ids := Select(profs, next, (p: ProfessionalRow) => p.isVerified);
    var vs := Views(profs, ids);
    assert forall id :: id in ids ==> exists i :: 0 <= i < |vs| && vs[i].id == id;
    vs
  }

  /** `deleteProfessional`: removes the professional, with its expertise and slots. */
  method DeleteProfessional(db: Database, id: Id) returns (r: Result<()>)
    requires db.Valid()
    modifies db`professionals
    ensures db.Valid()
    ensures id !in old(db.professionals) ==>
      r == Failure(NotFound("Professional")) && db.professionals == old(db.professionals)
    ensures id in old(db.professionals) ==> r == Success(()) && db.professionals == old(db.professionals) - {id}
  {
    if id !in db.professionals {
      return Failure(NotFound("Professional"));
    }
    db.professionals := db.professionals - {id};
    r := Success(());
  }
}
