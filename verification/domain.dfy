/**
 * The persisted records of the marketplace, as values: one datatype per table
 * row. Ids are the generated primary keys, dates are day numbers and times
 * are seconds of the day; a nullable column is an `Option`.
 */
module Domain {
  import opened Wrappers

  /** A generated primary key. */
  type Id = nat

  /** A `java.util.UUID`, reduced to an identity. */
  type Uuid = nat

  /** A `LocalDate`, as a day number. */
  type Date = int

  /** A `LocalTime`, as a second of the day. */
  type Time = int

  datatype JobType = Installation | BatterySetup | Maintenance | Repair | Inspection | Upgrade

  datatype JobStatus = Pending | Matched | Quoted | Assigned | InProgress | Completed | Cancelled

  datatype MatchStatus = Suggested | Accepted | Rejected | Withdrawn

  datatype QuoteStatus = QuotePending | QuoteAccepted | QuoteRejected

  /** A job's urgency, by the name of its constant. */
  datatype UrgencyLevel = UrgencyLevel(name: string)

  const NORMAL: UrgencyLevel := UrgencyLevel("NORMAL")

  /** A property's type, by the name of its constant. */
  datatype PropertyType = PropertyType(name: string)

  /** A row of `professional_expertise`, owned by the professional that lists it. */
  datatype Expertise = Expertise(
    expertiseType: string,
    yearsExperience: Option<int>,
    certificationName: Option<string>)

  /** A row of `availability_slots`, owned by the professional that lists it. */
  datatype Slot = Slot(date: Date, startTime: Time, endTime: Time, isBooked: bool)

  datatype ProfessionalRow = ProfessionalRow(
    userId: Uuid,
    companyName: Option<string>,
    email: string,
    phone: Option<string>,
    address: Option<string>,
    latitude: Option<real>,
    longitude: Option<real>,
    serviceRadiusKm: Option<int>,
    hourlyRate: Option<real>,
    yearsExperience: Option<int>,
    rating: Option<real>,
    totalJobsCompleted: Option<int>,
    isVerified: bool,
    expertiseList: seq<Expertise>,
    availabilitySlots: seq<Slot>)

  datatype CustomerRow = CustomerRow(
    userId: Uuid,
    name: Option<string>,
    email: string,
    phone: Option<string>,
    address: Option<string>,
    latitude: Option<real>,
    longitude: Option<real>)

  /** A row of `job_requirements`, owned by its job. */
  datatype Requirement = Requirement(
    panelType: Option<string>,
    panelCapacityKw: Option<real>,
    batteryRequired: bool,
    batteryCapacityKwh: Option<real>,
    propertyType: Option<PropertyType>,
    roofType: Option<string>,
    additionalNotes: Option<string>)

  datatype JobRow = JobRow(
    customerId: Id,
    jobType: JobType,
    title: Option<string>,
    description: Option<string>,
    status: JobStatus,
    latitude: real,
    longitude: real,
    preferredDate: Option<Date>,
    urgencyLevel: UrgencyLevel,
    budgetMin: Option<real>,
    budgetMax: Option<real>,
    requirement: Option<Requirement>)

  /** A row of `matches`: the scores of one (job, professional) pair. */
  datatype MatchRow = MatchRow(
    jobId: Id,
    professionalId: Id,
    matchScore: real,
    distanceKm: real,
    expertiseScore: real,
    availabilityScore: real,
    ratingScore: real,
    priceScore: real,
    status: MatchStatus)

  datatype QuoteRow = QuoteRow(
    jobId: Id,
    professionalId: Id,
    matchId: Option<Id>,
    amount: real,
    estimatedHours: Option<int>,
    materialsCost: Option<real>,
    laborCost: Option<real>,
    details: Option<string>,
    validUntil: Option<int>,
    status: QuoteStatus)
}
