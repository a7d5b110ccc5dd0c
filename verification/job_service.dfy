/**
 * JobService: posting a job with its optional requirement, status changes,
 * deletion, and the job queries.
 */
module JobService {
  import opened Wrappers
  import opened ValidationUtils
  import opened GeoUtils
  import opened Domain
  import opened Store
  import opened MatchSpec

  /** `CreateJobRequest`: the job's fields, then the seven optional requirement fields. */
  datatype JobRequest = JobRequest(
    customerId: Id,
    jobType: JobType,
    title: Option<string>,
    description: Option<string>,
    latitude: Option<real>,
    longitude: Option<real>,
    preferredDate: Option<Date>,
    urgencyLevel: Option<UrgencyLevel>,
    budgetMin: Option<real>,
    budgetMax: Option<real>,
    panelType: Option<string>,
    panelCapacityKw: Option<real>,
    batteryRequired: Option<bool>,
    batteryCapacityKwh: Option<real>,
    propertyType: Option<PropertyType>,
    roofType: Option<string>,
    additionalNotes: Option<string>)

  /** `JobDto`/`JobDetailDto`: a stored job and its id. */
  datatype JobView = JobView(id: Id, job: JobRow)

  /** `hasRequirementDetails`: whether any requirement field is given. */
  predicate HasRequirementDetails(req: JobRequest)
    ensures !HasRequirementDetails(req) <==>
      req == req.(panelType := None, panelCapacityKw := None, batteryRequired := None, batteryCapacityKwh := None,
                  propertyType := None, roofType := None, additionalNotes := None)
  {
    req.panelType.Some? || req.panelCapacityKw.Some? || req.batteryRequired.Some? ||
    req.batteryCapacityKwh.Some? || req.propertyType.Some? || req.roofType.Some? || req.additionalNotes.Some?
  }

  /** The requirement `createJob` attaches: text fields trimmed, a battery not required unless said so. */
  function NewRequirement(req: JobRequest): (r: Requirement)
    ensures r.batteryRequired <==> req.batteryRequired == Some(true)
    ensures r.panelCapacityKw == req.panelCapacityKw && r.batteryCapacityKwh == req.batteryCapacityKwh &&
            r.propertyType == req.propertyType
    ensures r.panelType.Some? <==> req.panelType.Some?
    ensures r.roofType.Some? <==> req.roofType.Some?
    ensures r.additionalNotes.Some? <==> req.additionalNotes.Some?
    ensures r.panelType.Some? ==> r.panelType.value == Trim(req.panelType.value)
    ensures r.roofType.Some? ==> r.roofType.value == Trim(req.roofType.value)
    ensures r.additionalNotes.Some? ==> r.additionalNotes.value == Trim(req.additionalNotes.value)
  {
    Requirement(Sanitize(req.panelType), req.panelCapacityKw, req.batteryRequired.GetOr(false),
                req.batteryCapacityKwh, req.propertyType, Sanitize(req.roofType), Sanitize(req.additionalNotes))
  }

  /** Why `createJob` refuses a request, in the order it checks; `None` when it accepts it. */
  function CreateJobError(customers: map<Id, CustomerRow>, req: JobRequest): (err: Option<Error>)
    ensures err.None? <==>
      req.customerId in customers && IsValidLatitude(req.latitude) && IsValidLongitude(req.longitude) &&
      (req.budgetMin.Some? && req.budgetMax.Some? ==> req.budgetMin.value <= req.budgetMax.value)
  {
    if req.customerId !in customers then Some(NotFound("Customer"))
    else if !IsValidLatitude(req.latitude) then Some(Invalid("Invalid latitude value"))
    else if !IsValidLongitude(req.longitude) then Some(Invalid("Invalid longitude value"))
    else if req.budgetMin.Some? && req.budgetMax.Some? && req.budgetMin.value > req.budgetMax.value then
      Some(Invalid("Minimum budget cannot be greater than maximum budget"))
    else None
  }

  /**
   * The job `createJob` builds: PENDING, title and description trimmed,
   * NORMAL urgency unless given, and a requirement only when some detail is
   * given. The coordinates are the request's, known present once it passed.
   */
  function NewJob(req: JobRequest): (job: JobRow)
    requires req.latitude.Some? && req.longitude.Some?
    ensures job.status == Pending && job.customerId == req.customerId && job.jobType == req.jobType
    ensures job.latitude == req.latitude.value && job.longitude == req.longitude.value
    ensures job.urgencyLevel == if req.urgencyLevel.Some? then req.urgencyLevel.value else NORMAL
    ensures job.requirement.Some? <==> HasRequirementDetails(req)
    ensures job.requirement.Some? && req.batteryRequired.None? ==> !job.requirement.value.batteryRequired
    ensures job.title.Some? ==> Trim(job.title.value) == job.title.value
    ensures job.description.Some? ==> Trim(job.description.value) == job.description.value
  {
    SanitizeIdempotent(req.title);
    SanitizeIdempotent(req.description);
    JobRow(req.customerId, req.jobType, Sanitize(req.title), Sanitize(req.description), Pending,
           req.latitude.value, req.longitude.value, req.preferredDate, req.urgencyLevel.GetOr(NORMAL),
           req.budgetMin, req.budgetMax,
           if HasRequirementDetails(req) then Some(NewRequirement(req)) else None)
  }

  /** What a posted job looks like. */
  lemma NewJobShape(customers: map<Id, CustomerRow>, req: JobRequest)
    requires CreateJobError(customers, req).None?
    ensures var job := NewJob(req);
      job.customerId in customers &&
      -90.0 <= job.latitude <= 90.0 && -180.0 <= job.longitude <= 180.0 &&
      (job.budgetMin.Some? && job.budgetMax.Some? ==> job.budgetMin.value <= job.budgetMax.value) &&
      job.title == Sanitize(req.title) && job.description == Sanitize(req.description)
  {
  }

  /** The checks `createJob` makes before building the job, in their order. */
  method CheckJobRequest(customers: map<Id, CustomerRow>, req: JobRequest) returns (err: Option<Error>)
    ensures err == CreateJobError(customers, req)
  {
    if req.customerId !in customers {
      return Some(NotFound("Customer"));
    }
    if !IsValidLatitude(req.latitude) {
      return Some(Invalid("Invalid latitude value"));
    }
    if !IsValidLongitude(req.longitude) {
      return Some(Invalid("Invalid longitude value"));
    }
    if req.budgetMin.Some? && req.budgetMax.Some? {
      if req.budgetMin.value > req.budgetMax.value {
        return Some(Invalid("Minimum budget cannot be greater than maximum budget"));
      }
    }
    err := None;
  }

  /** `createJob`: builds the job, attaches the requirement when there is one, and saves both. */
  method CreateJob(db: Database, req: JobRequest) returns (r: Result<JobView>)
    requires db.Valid()
    modifies db`jobs, db`nextJobId
    ensures db.Valid()
    ensures var err := CreateJobError(old(db.customers), req);
      if err.Some? then
        r == Failure(err.value) && db.jobs == old(db.jobs) && db.nextJobId == old(db.nextJobId)
      else
        db.jobs == old(db.jobs)[old(db.nextJobId) := NewJob(req)] && db.nextJobId == old(db.nextJobId) + 1 &&
        r == Success(JobView(old(db.nextJobId), NewJob(req)))
  {
    var err := CheckJobRequest(db.customers, req);
    if err.Some? {
      return Failure(err.value);
    }
    var job := JobRow(req.customerId, req.jobType, Sanitize(req.title), Sanitize(req.description), Pending,
                      req.latitude.value, req.longitude.value, req.preferredDate, req.urgencyLevel.GetOr(NORMAL),
                      req.budgetMin, req.budgetMax, None);
    if HasRequirementDetails(req) {
      job := job.(requirement := Some(NewRequirement(req)));
    }
    var id := db.nextJobId;
    db.jobs := db.jobs[id := job];
    db.nextJobId := id + 1;
    r := Success(JobView(id, job));
  }

  /** A new job is open to matching. */
  lemma PostedJobIsOpen(customers: map<Id, CustomerRow>, req: JobRequest)
    requires CreateJobError(customers, req).None?
    ensures IsOpen(NewJob(req).status)
  {
  }

  // ---------------------------------------------------------- lifecycle

  /** `updateJobStatus`: sets any status, with no transition check; nothing else changes. */
  method UpdateJobStatus(db: Database, id: Id, status: JobStatus) returns (r: Result<JobView>)
    requires db.Valid()
    modifies db`jobs
    ensures db.Valid()
    ensures id !in old(db.jobs) ==> r == Failure(NotFound("Job")) && db.jobs == old(db.jobs)
    ensures id in old(db.jobs) ==>
      db.jobs == old(db.jobs)[id := old(db.jobs)[id].(status := status)] &&
      r == Success(JobView(id, db.jobs[id]))
  {
    if id !in db.jobs {
      return Failure(NotFound("Job"));
    }
    var job := db.jobs[id].(status := status);
    db.jobs := db.jobs[id := job];
    r := Success(JobView(id, job));
  }

  /** `deleteJob`. */
  method DeleteJob(db: Database, id: Id) returns (r: Result<()>)
    requires db.Valid()
    modifies db`jobs
    ensures db.Valid()
    ensures id !in old(db.jobs) ==> r == Failure(NotFound("Job")) && db.jobs == old(db.jobs)
    ensures id in old(db.jobs) ==> r == Success(()) && db.jobs == old(db.jobs) - {id}
  {
    if id !in db.jobs {
      return Failure(NotFound("Job"));
    }
    db.jobs := db.jobs - {id};
    r := Success(());
  }

  // ------------------------------------------------------------- queries

  /** `getJobById`. */
  function GetJobById(jobs: map<Id, JobRow>, id: Id): (r: Result<JobView>)
    ensures id !in jobs <==> r == Failure(NotFound("Job"))
    ensures r.Success? ==> r.value == JobView(id, jobs[id])
  {
    if id !in jobs then Failure(NotFound("Job")) else Success(JobView(id, jobs[id]))
  }

  /** The rows of the ids, as views. */
  function Views(jobs: map<Id, JobRow>, ids: seq<Id>): (vs: seq<JobView>)
    requires forall i :: 0 <= i < |ids| ==> ids[i] in jobs
    ensures |vs| == |ids|
    ensures forall i :: 0 <= i < |ids| ==> vs[i] == JobView(ids[i], jobs[ids[i]])
  {
    seq(|ids|, i requires 0 <= i < |ids| => JobView(ids[i], jobs[ids[i]]))
  }

  /** The jobs satisfying `keep`, as views in id order. */
  function JobsWhere(jobs: map<Id, JobRow>, next: Id, keep: JobRow -> bool): (vs: seq<JobView>)
    ensures forall i :: 0 <= i < |vs| ==> vs[i].id in jobs && vs[i].job == jobs[vs[i].id] && keep(vs[i].job)
    ensures forall i, j :: 0 <= i < j < |vs| ==> vs[i].id < vs[j].id
    ensures forall id :: id in jobs && id < next && keep(jobs[id]) ==> exists i :: 0 <= i < |vs| && vs[i].id == id
  {
    var ids := Select(jobs, next, keep);
    var vs := Views(jobs, ids);
    assert forall id :: id in ids ==> exists i :: 0 <= i < |vs| && vs[i].id == id;
    vs
  }

  function OfCustomer(customerId: Id): JobRow -> bool {
    (j: JobRow) => j.customerId == customerId
  }

  function InStatus(status: JobStatus): JobRow -> bool {
    (j: JobRow) => j.status == status
  }

  function Open(): JobRow -> bool {
    (j: JobRow) => IsOpen(j.status)
  }

  /** `getJobsByCustomerId`: fails for an unknown customer, else that customer's jobs. */
  function GetJobsByCustomerId(customers: map<Id, CustomerRow>, jobs: map<Id, JobRow>, next: Id, customerId: Id)
    : (r: Result<seq<JobView>>)
    requires KeysBelow(jobs, next)
    ensures customerId !in customers <==> r == Failure(NotFound("Customer"))
    ensures r.Success? ==>
      (forall i :: 0 <= i < |r.value| ==>
         r.value[i].id in jobs && r.value[i].job == jobs[r.value[i].id] && r.value[i].job.customerId == customerId) &&
      (forall id :: id in jobs && jobs[id].customerId == customerId ==> exists i :: 0 <= i < |r.value| && r.value[i].id == id)
  {
    if customerId !in customers then Failure(NotFound("Customer"))
    else Success(JobsWhere(jobs, next, OfCustomer(customerId)))
  }

  /** `getAllJobs`, in id order. */
  function GetAllJobs(jobs: map<Id, JobRow>, next: Id): (vs: seq<JobView>)
    requires KeysBelow(jobs, next)
    ensures forall i :: 0 <= i < |vs| ==> vs[i].id in jobs && vs[i].job == jobs[vs[i].id]
    ensures forall id :: id in jobs ==> exists i :: 0 <= i < |vs| && vs[i].id == id
  {
    JobsWhere(jobs, next, (j: JobRow) => true)
  }

  /** `getJobsByStatus`. */
  function GetJobsByStatus(jobs: map<Id, JobRow>, next: Id, status: JobStatus): (vs: seq<JobView>)
    requires KeysBelow(jobs, next)
    ensures forall i :: 0 <= i < |vs| ==> vs[i].id in jobs && vs[i].job == jobs[vs[i].id] && vs[i].job.status == status
    ensures forall id :: id in jobs && jobs[id].status == status ==> exists i :: 0 <= i < |vs| && vs[i].id == id
  {
    JobsWhere(jobs, next, InStatus(status))
  }

  /** `getOpenJobs`: the PENDING and MATCHED jobs, the ones a matching run accepts. */
  function GetOpenJobs(jobs: map<Id, JobRow>, next: Id): (vs: seq<JobView>)
    requires KeysBelow(jobs, next)
    ensures forall i :: 0 <= i < |vs| ==>
      vs[i].id in jobs && vs[i].job == jobs[vs[i].id] && (vs[i].job.status == Pending || vs[i].job.status == Matched)
    ensures forall id :: id in jobs && IsOpen(jobs[id].status) ==> exists i :: 0 <= i < |vs| && vs[i].id == id
  {
    JobsWhere(jobs, next, Open())
  }
}
