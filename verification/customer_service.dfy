/**
 * CustomerService: registering a customer, partial updates, the lookups by
 * id, user id and email, and deletion.
 */
module CustomerService {
  import opened Wrappers
  import opened ValidationUtils
  import opened GeoUtils
  import opened Domain
  import opened Store
  import opened Setters

  /** `CreateCustomerRequest`, which also carries the fields of an update. */
  datatype CustomerRequest = CustomerRequest(
    userId: Option<Uuid>,
    name: Option<string>,
    email: Option<string>,
    phone: Option<string>,
    address: Option<string>,
    latitude: Option<real>,
    longitude: Option<real>)

  /** `CustomerDto`: a stored customer and its id. */
  datatype CustomerView = CustomerView(id: Id, customer: CustomerRow)

  /** `existsByEmail`: an exact, case-sensitive comparison. */
  predicate EmailTaken(customers: map<Id, CustomerRow>, email: string) {
    exists id | id in customers :: customers[id].email == email
  }

  /** `existsByUserId`. */
  predicate UserIdTaken(customers: map<Id, CustomerRow>, userId: Uuid) {
    exists id | id in customers :: customers[id].userId == userId
  }

  // -------------------------------------------------------------- create

  /** Why `createCustomer` refuses a request, in the order it checks; `None` when it accepts it. */
  function CreateCustomerError(customers: map<Id, CustomerRow>, req: CustomerRequest): (err: Option<Error>)
    ensures err.None? <==>
      IsValidEmail(req.email) && !EmailTaken(customers, req.email.value) &&
      (req.userId.Some? ==> !UserIdTaken(customers, req.userId.value)) &&
      (req.latitude.Some? || req.longitude.Some? ==> IsValidLatitude(req.latitude) && IsValidLongitude(req.longitude))
  {
    if !IsValidEmail(req.email) then Some(Invalid("Invalid email format"))
    else if EmailTaken(customers, req.email.value) then Some(Invalid("Customer with email already exists"))
    else if req.userId.Some? && UserIdTaken(customers, req.userId.value) then
      Some(Invalid("Customer with userId already exists"))
    else if (req.latitude.Some? || req.longitude.Some?) && !IsValidLatitude(req.latitude) then
      Some(Invalid("Invalid latitude value"))
    else if (req.latitude.Some? || req.longitude.Some?) && !IsValidLongitude(req.longitude) then
      Some(Invalid("Invalid longitude value"))
    else None
  }

  /**
   * The customer `createCustomer` builds: the email lower-cased then
   * trimmed, the text fields trimmed, the user id generated when absent.
   */
  function NewCustomer(req: CustomerRequest, freshUserId: Uuid): (c: CustomerRow)
    ensures c.userId == if req.userId.Some? then req.userId.value else freshUserId
    ensures forall i :: 0 <= i < |c.email| ==> !IsAsciiUpper(c.email[i])
    ensures c.latitude == req.latitude && c.longitude == req.longitude
    ensures c.name.Some? <==> req.name.Some?
    ensures c.name.Some? ==> Trim(c.name.value) == c.name.value
  {
    NormalizedEmailLowerCase(req.email.GetOr(""));
    SanitizeIdempotent(req.name);
    CustomerRow(req.userId.GetOr(freshUserId), Sanitize(req.name), Trim(ToLower(req.email.GetOr(""))),
                Sanitize(req.phone), Sanitize(req.address), req.latitude, req.longitude)
  }

  /** The checks `createCustomer` makes before building the customer, in their order. */
  method CheckCustomerRequest(customers: map<Id, CustomerRow>, req: CustomerRequest) returns (err: Option<Error>)
    ensures err == CreateCustomerError(customers, req)
  {
    if !IsValidEmail(req.email) {
      return Some(Invalid("Invalid email format"));
    }
    if EmailTaken(customers, req.email.value) {
      return Some(Invalid("Customer with email already exists"));
    }
    if req.userId.Some? && UserIdTaken(customers, req.userId.value) {
      return Some(Invalid("Customer with userId already exists"));
    }
    if req.latitude.Some? || req.longitude.Some? {
      if !IsValidLatitude(req.latitude) {
        return Some(Invalid("Invalid latitude value"));
      }
      if !IsValidLongitude(req.longitude) {
        return Some(Invalid("Invalid longitude value"));
      }
    }
    err := None;
  }

  /** `createCustomer`; `freshUserId` stands for `UUID.randomUUID()`. */
  method CreateCustomer(db: Database, req: CustomerRequest, freshUserId: Uuid) returns (r: Result<CustomerView>)
    requires db.Valid()
    modifies db`customers, db`nextCustomerId
    ensures db.Valid()
    ensures var err := CreateCustomerError(old(db.customers), req);
      if err.Some? then
        r == Failure(err.value) && db.customers == old(db.customers) && db.nextCustomerId == old(db.nextCustomerId)
      else
        var c := NewCustomer(req, freshUserId);
        db.customers == old(db.customers)[old(db.nextCustomerId) := c] &&
        db.nextCustomerId == old(db.nextCustomerId) + 1 &&
        r == Success(CustomerView(old(db.nextCustomerId), c))
  {
    var err := CheckCustomerRequest(db.customers, req);
    if err.Some? {
      return Failure(err.value);
    }
    var c := NewCustomer(req, freshUserId);
    var id := SaveCustomer(db, c);
    r := Success(CustomerView(id, c));
  }

  /** `customerRepository.save` of a new row: it takes the next id. */
  method SaveCustomer(db: Database, c: CustomerRow) returns (id: Id)
    requires db.Valid()
    modifies db`customers, db`nextCustomerId
    ensures db.Valid()
    ensures id == old(db.nextCustomerId) && id !in old(db.customers)
    ensures db.customers == old(db.customers)[id := c] && db.nextCustomerId == id + 1
  {
    id := db.nextCustomerId;
    db.customers := db.customers[id := c];
    db.nextCustomerId := id + 1;
  }

  /**
   * A customer built from a request with a valid address and valid
   * coordinates, as every request `createCustomer` accepts has: a valid
   * address, a position only when both coordinates are valid, and trimmed
   * text fields.
   */
  lemma NewCustomerShape(req: CustomerRequest, freshUserId: Uuid)
    requires IsValidEmail(req.email)
    requires req.latitude.Some? || req.longitude.Some? ==> IsValidLatitude(req.latitude) && IsValidLongitude(req.longitude)
    ensures var c := NewCustomer(req, freshUserId);
      IsValidEmail(Some(c.email)) &&
      (c.latitude.Some? || c.longitude.Some? ==> IsValidLatitude(c.latitude) && IsValidLongitude(c.longitude)) &&
      c.name == Sanitize(req.name) && c.phone == Sanitize(req.phone) && c.address == Sanitize(req.address)
  {
    NormalizedEmailValid(req.email.value);
  }

  // ------------------------------------------------------------- lookups

  /** `getCustomerById`. */
  function GetCustomerById(customers: map<Id, CustomerRow>, id: Id): (r: Result<CustomerView>)
    ensures id !in customers <==> r == Failure(NotFound("Customer"))
    ensures r.Success? ==> r.value == CustomerView(id, customers[id])
  {
    if id !in customers then Failure(NotFound("Customer")) else Success(CustomerView(id, customers[id]))
  }

  function WithEmail(email: string): CustomerRow -> bool {
    (c: CustomerRow) => c.email == email
  }

  function WithUserId(userId: Uuid): CustomerRow -> bool {
    (c: CustomerRow) => c.userId == userId
  }

  /**
   * A derived single-result query (`Optional<Customer> findBy…`): nothing
   * found, the one row found, or a failure when several rows qualify.
   */
  function FindOne(customers: map<Id, CustomerRow>, next: Id, keep: CustomerRow -> bool): (r: Result<CustomerView>)
    requires KeysBelow(customers, next)
    ensures r == Failure(NotFound("Customer")) <==> forall id | id in customers :: !keep(customers[id])
    ensures r.Success? ==>
      r.value.id in customers && r.value.customer == customers[r.value.id] && keep(r.value.customer) &&
      forall id | id in customers && keep(customers[id]) :: id == r.value.id
    ensures r.Failure? && r != Failure(NotFound("Customer")) ==>
      exists a, b | a in customers && b in customers :: a != b && keep(customers[a]) && keep(customers[b])
  {
    var ids := Select(customers, next, keep);
    if ids == [] then Failure(NotFound("Customer"))
    else if |ids| > 1 then
      assert ids[0] != ids[1];
      Failure(Fault("query did not return a unique result"))
    else
      assert forall id | id in customers && keep(customers[id]) :: id in ids;
      Success(CustomerView(ids[0], customers[ids[0]]))
  }

  /** `getCustomerByUserId`. */
  function GetCustomerByUserId(customers: map<Id, CustomerRow>, next: Id, userId: Uuid): (r: Result<CustomerView>)
    requires KeysBelow(customers, next)
    ensures r == Failure(NotFound("Customer")) <==> !UserIdTaken(customers, userId)
    ensures r.Success? ==> r.value.id in customers && r.value.customer == customers[r.value.id] &&
                           r.value.customer.userId == userId
  {
    FindOne(customers, next, WithUserId(userId))
  }

  /** `getCustomerByEmail`: an exact comparison with the stored, normalised address. */
  function GetCustomerByEmail(customers: map<Id, CustomerRow>, next: Id, email: string): (r: Result<CustomerView>)
    requires KeysBelow(customers, next)
    ensures r == Failure(NotFound("Customer")) <==> !EmailTaken(customers, email)
    ensures r.Success? ==> r.value.id in customers && r.value.customer == customers[r.value.id] &&
                           r.value.customer.email == email
  {
    FindOne(customers, next, WithEmail(email))
  }

  /** The rows of the ids, as views. */
  function Views(customers: map<Id, CustomerRow>, ids: seq<Id>): (vs: seq<CustomerView>)
    requires forall i :: 0 <= i < |ids| ==> ids[i] in customers
    ensures |vs| == |ids|
    ensures forall i :: 0 <= i < |ids| ==> vs[i] == CustomerView(ids[i], customers[ids[i]])
  {
    seq(|ids|, i requires 0 <= i < |ids| => CustomerView(ids[i], customers[ids[i]]))
  }

  /** `getAllCustomers`, in id order. */
  function GetAllCustomers(customers: map<Id, CustomerRow>, next: Id): (vs: seq<CustomerView>)
    ensures forall i :: 0 <= i < |vs| ==> vs[i].id in customers && vs[i].customer == customers[vs[i].id]
    ensures forall i, j :: 0 <= i < j < |vs| ==> vs[i].id < vs[j].id
    ensures forall id :: id in customers && id < next ==> exists i :: 0 <= i < |vs| && vs[i].id == id
  {
    var ids := Select(customers, next, (c: CustomerRow) => true);
    var vs := Views(customers, ids);
    assert forall id :: id in ids ==> exists i :: 0 <= i < |vs| && vs[i].id == id;
    vs
  }

  /** Once two customers share an address, the lookup by that address fails. */
  lemma SharedEmailBreaksLookup(customers: map<Id, CustomerRow>, next: Id, a: Id, b: Id)
    requires KeysBelow(customers, next)
    requires a in customers && b in customers && a != b && customers[a].email == customers[b].email
    ensures var r := GetCustomerByEmail(customers, next, customers[a].email);
      r.Failure? && r != Failure(NotFound("Customer"))
  {
    var email := customers[a].email;
    assert WithEmail(email)(customers[a]) && WithEmail(email)(customers[b]);
  }

  /**
   * The duplicate check compares the raw input while the row holds the
   * normalised address: a case variant of a stored address passes every
   * check of `createCustomer`, and once `CreateCustomer` stores it under the
   * next id the lookup by the address finds two customers.
   */
  lemma CaseVariantBreaksEmailLookup(customers: map<Id, CustomerRow>, next: Id, req: CustomerRequest,
                                     freshUserId: Uuid, id: Id)
    requires KeysBelow(customers, next) && req.email.Some? && CreateCustomerError(customers, req).None?
    requires id in customers && customers[id].email == Trim(ToLower(req.email.value))
    ensures var after := customers[next := NewCustomer(req, freshUserId)];
      KeysBelow(after, next + 1) &&
      var r := GetCustomerByEmail(after, next + 1, customers[id].email);
      r.Failure? && r != Failure(NotFound("Customer"))
  {
    AcceptedAddressIsFree(customers, req);
    StoredVariantBreaksLookup(customers, next, req, freshUserId, id);
  }

  /** An accepted request's raw address is held by no stored customer. */
  lemma AcceptedAddressIsFree(customers: map<Id, CustomerRow>, req: CustomerRequest)
    requires CreateCustomerError(customers, req).None?
    ensures req.email.Some? && !EmailTaken(customers, req.email.value)
  {
  }

  /** Storing a customer whose normalised address another already holds breaks the lookup by that address. */
  lemma StoredVariantBreaksLookup(customers: map<Id, CustomerRow>, next: Id, req: CustomerRequest,
                                  freshUserId: Uuid, id: Id)
    requires KeysBelow(customers, next) && req.email.Some?
    requires id in customers && customers[id].email == Trim(ToLower(req.email.value))
    ensures KeysBelow(customers[next := NewCustomer(req, freshUserId)], next + 1)
    ensures var r := GetCustomerByEmail(customers[next := NewCustomer(req, freshUserId)], next + 1, customers[id].email);
      r.Failure? && r != Failure(NotFound("Customer"))
  {
    var after := customers[next := NewCustomer(req, freshUserId)];
    assert after[next].email == customers[id].email;
    assert KeysBelow(after, next + 1);
    SharedEmailBreaksLookup(after, next + 1, id, next);
  }

  // -------------------------------------------------------------- update

  /** The position setter: a pair given in full must be valid and replaces the position. */
  function PositionUpdated(c: CustomerRow, req: CustomerRequest): Result<CustomerRow> {
    if req.latitude.None? || req.longitude.None? then Success(c)
    else if !IsValidLatitude(req.latitude) then Failure(Invalid("Invalid latitude value"))
    else if !IsValidLongitude(req.longitude) then Failure(Invalid("Invalid longitude value"))
    else Success(c.(latitude := req.latitude, longitude := req.longitude))
  }

  /**
   * The customer after `updateCustomer`: name, phone and address change only
   * to a non-blank input, trimmed; the position only to a pair given in full,
   * which must then be valid; email and user id never change.
   */
  function UpdatedCustomer(c: CustomerRow, req: CustomerRequest): (r: Result<CustomerRow>)
    ensures r.Failure? <==>
      req.latitude.Some? && req.longitude.Some? && !(IsValidLatitude(req.latitude) && IsValidLongitude(req.longitude))
    ensures r.Success? ==>
      var q := r.value;
      q.email == c.email && q.userId == c.userId &&
      (q.name != c.name ==> IsNotEmpty(req.name) && q.name == Sanitize(req.name)) &&
      (q.phone != c.phone ==> IsNotEmpty(req.phone) && q.phone == Sanitize(req.phone)) &&
      (q.address != c.address ==> IsNotEmpty(req.address) && q.address == Sanitize(req.address)) &&
      ((q.latitude, q.longitude) != (c.latitude, c.longitude) ==>
         q.latitude == req.latitude && q.longitude == req.longitude &&
         IsValidLatitude(q.latitude) && IsValidLongitude(q.longitude))
  {
    PositionUpdated(c.(name := TextUpdate(c.name, req.name),
                       phone := TextUpdate(c.phone, req.phone),
                       address := TextUpdate(c.address, req.address)), req)
  }

  /** A request with nothing to change leaves the customer as it was. */
  lemma EmptyUpdateKeeps(c: CustomerRow, req: CustomerRequest)
    requires !IsNotEmpty(req.name) && !IsNotEmpty(req.phone) && !IsNotEmpty(req.address) && req.latitude.None?
    ensures UpdatedCustomer(c, req) == Success(c)
  {
  }

  /** Applying the same update twice changes nothing more. */
  lemma UpdateIdempotent(c: CustomerRow, req: CustomerRequest)
    requires UpdatedCustomer(c, req).Success?
    ensures UpdatedCustomer(UpdatedCustomer(c, req).value, req) == UpdatedCustomer(c, req)
  {
  }

  /** The setters of `updateCustomer`, applied in order to the loaded customer. */
  method ApplyUpdate(c0: CustomerRow, req: CustomerRequest) returns (r: Result<CustomerRow>)
    ensures r == UpdatedCustomer(c0, req)
  {
    var c := c0;
    if IsNotEmpty(req.name) {
      c := c.(name := Sanitize(req.name));
    }
    if IsNotEmpty(req.phone) {
      c := c.(phone := Sanitize(req.phone));
    }
    if IsNotEmpty(req.address) {
      c := c.(address := Sanitize(req.address));
    }
    if req.latitude.Some? && req.longitude.Some? {
      if !IsValidLatitude(req.latitude) {
        return Failure(Invalid("Invalid latitude value"));
      }
      if !IsValidLongitude(req.longitude) {
        return Failure(Invalid("Invalid longitude value"));
      }
      c := c.(latitude := req.latitude, longitude := req.longitude);
    }
    r := Success(c);
  }

  /**
   * `updateCustomer`: an invalid position aborts the transaction, so none of
   * the fields set before it is kept.
   */
  method UpdateCustomer(db: Database, id: Id, req: CustomerRequest) returns (r: Result<CustomerView>)
    requires db.Valid()
    modifies db`customers
    ensures db.Valid()
    ensures id !in old(db.customers) ==> r == Failure(NotFound("Customer")) && db.customers == old(db.customers)
    ensures id in old(db.customers) ==>
      var u := UpdatedCustomer(old(db.customers)[id], req);
      if u.Failure? then r == Failure(u.error) && db.customers == old(db.customers)
      else db.customers == old(db.customers)[id := u.value] && r == Success(CustomerView(id, u.value))
  {
    if id !in db.customers {
      return Failure(NotFound("Customer"));
    }
    var updated := ApplyUpdate(db.customers[id], req);
    if updated.Failure? {
      return Failure(updated.error);
    }
    db.customers := db.customers[id := updated.value];
    r := Success(CustomerView(id, updated.value));
  }

  // -------------------------------------------------------------- delete

  /** `deleteCustomer`. */
  method DeleteCustomer(db: Database, id: Id) returns (r: Result<()>)
    requires db.Valid()
    modifies db`customers
    ensures db.Valid()
    ensures id !in old(db.customers) ==> r == Failure(NotFound("Customer")) && db.customers == old(db.customers)
    ensures id in old(db.customers) ==> r == Success(()) && db.customers == old(db.customers) - {id}
  {
    if id !in db.customers {
      return Failure(NotFound("Customer"));
    }
    db.customers := db.customers - {id};
    r := Success(());
  }
}
