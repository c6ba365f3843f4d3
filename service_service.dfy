/** The business rules of the service catalogue (internal/service/service_service.go), run
    against the in-memory service table. The table hands out its stored objects, so the field
    writes of Update and Patch land in the table before the repository's own Update is
    called. */
module ServiceRules {
  import opened Primitive
  import opened Errors
  import opened Pagination
  import opened Tables
  import opened Domain
  import opened ServiceRepositoryMock

  const MaxNameLength: int := 255
  const MaxDescriptionLength: int := 1000

  /** One field's check: empty is the first error, longer than `max` bytes the second. */
  function FieldError(value: string, required: Error, tooLong: Error, max: int): (r: Option<Error>)
    requires required != tooLong
    ensures r == None <==> 0 < |value| <= max
    ensures r == Some(required) <==> value == ""
    ensures r != None && r != Some(required) ==> r == Some(tooLong) && |value| > max
  {
    if |value| == 0 then Some(required)
    else if |value| > max then Some(tooLong)
    else None
  }

  /** validateCreateServiceRequest and validateUpdateServiceRequest, which make the same
      checks: name first (empty, then longer than 255 bytes), then description (empty, then
      longer than 1000 bytes); the first failing check is the error. */
  function ValidateServiceFields(name: string, description: string): (r: Option<Error>)
    ensures r == None <==> 0 < |name| <= MaxNameLength && 0 < |description| <= MaxDescriptionLength
    ensures r == Some(NameRequired) <==> name == ""
    ensures r == Some(NameTooLong) <==> |name| > MaxNameLength
    ensures r == Some(DescriptionRequired) <==> 0 < |name| <= MaxNameLength && description == ""
    ensures r == Some(DescriptionTooLong) <==>
      0 < |name| <= MaxNameLength && |description| > MaxDescriptionLength
  {
    match FieldError(name, NameRequired, NameTooLong, MaxNameLength)
    case Some(e) => Some(e)
    case None => FieldError(description, DescriptionRequired, DescriptionTooLong, MaxDescriptionLength)
  }

  function ValidateCreateServiceRequest(req: CreateServiceRequest): Option<Error> {
    ValidateServiceFields(req.name, req.description)
  }

  function ValidateUpdateServiceRequest(req: UpdateServiceRequest): Option<Error> {
    ValidateServiceFields(req.name, req.description)
  }

  /** The error Patch stops at, if any: the provided name's check, then the provided
      description's; an absent field is not checked. */
  function PatchError(req: PatchServiceRequest): (r: Option<Error>)
    ensures req.name == None && req.description == None ==> r == None
  {
    var nameErr := match req.name
      case Some(n) => FieldError(n, NameRequired, NameTooLong, MaxNameLength)
      case None => None;
    if nameErr.Some? then nameErr
    else match req.description
      case Some(d) => FieldError(d, DescriptionRequired, DescriptionTooLong, MaxDescriptionLength)
      case None => None
  }

  /** Whether Patch gets as far as writing the name: it is provided and passes its check. */
  predicate PatchWritesName(req: PatchServiceRequest) {
    req.name.Some? && FieldError(req.name.value, NameRequired, NameTooLong, MaxNameLength) == None
  }

  /** The record after a Patch whose checks all passed: each provided field replaced. */
  function Patched(row: ServiceRow, req: PatchServiceRequest): (r: ServiceRow)
    ensures r.id == row.id && r.revision == row.revision
    ensures r.createdAt == row.createdAt && r.updatedAt == row.updatedAt
    ensures req.name.Some? ==> r.name == req.name.value
    ensures req.name.None? ==> r.name == row.name
    ensures req.description.Some? ==> r.description == req.description.value
    ensures req.description.None? ==> r.description == row.description
  {
    row.(name := if req.name.Some? then req.name.value else row.name,
         description := if req.description.Some? then req.description.value else row.description)
  }

  /** The record after a Patch that failed a check: the name replaced if it had passed its
      own check, everything else as it was. */
  function PartlyPatched(row: ServiceRow, req: PatchServiceRequest): (r: ServiceRow)
    ensures PatchWritesName(req) ==> r == row.(name := req.name.value)
    ensures !PatchWritesName(req) ==> r == row
  {
    if PatchWritesName(req) then row.(name := req.name.value) else row
  }

  /** A Patch that provides both fields is checked exactly as an Update with them. */
  lemma PatchBothFieldsAsUpdate(name: string, description: string)
    ensures PatchError(PatchServiceRequest(Some(name), Some(description))) ==
            ValidateServiceFields(name, description)
  {
  }

  /** A Patch whose description fails still writes a valid name: the stored name changes
      although the call returns an error. */
  lemma PatchPartialWrite(name: string, description: string)
    requires 0 < |name| <= MaxNameLength && description == ""
    ensures PatchError(PatchServiceRequest(Some(name), Some(description))) == Some(DescriptionRequired)
    ensures PatchWritesName(PatchServiceRequest(Some(name), Some(description)))
  {
  }

  /** IsNotFoundError. */
  predicate IsNotFoundError(e: Error) {
    e == NotFound
  }

  /** IsValidationError: the four name/description errors, ErrInvalidSortField and
      ErrInvalidID; ErrVersionRequired is not among them. */
  function IsValidationError(e: Error): (b: bool)
    ensures b <==> e in {NameRequired, DescriptionRequired, NameTooLong, DescriptionTooLong,
                         InvalidSortField, InvalidID}
  {
    e == NameRequired || e == DescriptionRequired || e == NameTooLong || e == DescriptionTooLong ||
    e == InvalidSortField || e == InvalidID
  }

  /** Every error the validators and Patch return is a validation error, and so are List's
      sort error and Delete's id error; the version service's ErrVersionRequired is not. */
  lemma ValidatorErrorsAreValidation(name: string, description: string, req: PatchServiceRequest)
    ensures ValidateServiceFields(name, description).Some? ==>
      IsValidationError(ValidateServiceFields(name, description).value)
    ensures PatchError(req).Some? ==> IsValidationError(PatchError(req).value)
    ensures IsValidationError(InvalidSortField) && IsValidationError(InvalidID)
    ensures !IsValidationError(VersionRequired) && !IsValidationError(NotFound)
  {
  }

  /** The parameters List passes to the repository: sort "created_at" and order "desc" when
      empty, limit 20 and page 1 when zero, then a limit above 100 cut to 100. */
  function ListDefaults(p: ListParams): (r: ListParams)
    ensures r.search == p.search && r.name == p.name
    ensures r.sort == (if p.sort == "" then "created_at" else p.sort)
    ensures r.order == (if p.order == "" then "desc" else p.order)
    ensures p.pagination.limit == 0 ==> r.pagination.limit == 20
    ensures p.pagination.limit != 0 ==> r.pagination.limit == Min(p.pagination.limit, 100)
    ensures r.pagination.page == (if p.pagination.page == 0 then 1 else p.pagination.page)
  {
    var limit := if p.pagination.limit == 0 then 20 else p.pagination.limit;
    var page := if p.pagination.page == 0 then 1 else p.pagination.page;
    ListParams(p.search, p.name, if p.sort == "" then "created_at" else p.sort,
               if p.order == "" then "desc" else p.order,
               PaginationParams(page, if limit > 100 then 100 else limit))
  }

  /** From non-negative page and limit the defaults give page >= 1 and 1 <= limit <= 100,
      and applying them again changes nothing. */
  lemma ListDefaultsBounds(p: ListParams)
    requires p.pagination.page >= 0 && p.pagination.limit >= 0
    ensures ListDefaults(p).pagination.page >= 1
    ensures 1 <= ListDefaults(p).pagination.limit <= 100
    ensures ListDefaults(ListDefaults(p)) == ListDefaults(p)
  {
  }

  class ServiceService {
    const repo: MockServiceRepository

    /** NewServiceService. */
    constructor (repo: MockServiceRepository)
      ensures this.repo == repo
    {
      this.repo := repo;
    }

    /** Validates, then stores a new service through the table's Create; nothing is stored
        on a validation error. */
    method Create(req: CreateServiceRequest, freshId: ObjectID, now: int) returns (r: Result<Service>)
      requires repo.Valid() && !IsZero(freshId)
      modifies repo
      ensures repo.Valid()
      ensures ValidateCreateServiceRequest(req).Some? ==>
        r == Err(ValidateCreateServiceRequest(req).value) && repo.services == old(repo.services)
      ensures ValidateCreateServiceRequest(req).None? ==>
        r.Ok? && fresh(r.value) &&
        r.value.Row() == ServiceRow(freshId, req.name, req.description, 1, At(now), At(now)) &&
        repo.services == old(repo.services)[Hex(freshId) := r.value]
    {
      var err := ValidateCreateServiceRequest(req);
      match err {
        case Some(e) => return Err(e);
        case None =>
      }
      var service := new Service(NilObjectID, req.name, req.description, 0, ZeroTime, ZeroTime);
      repo.Create(service, freshId, now);
      return Ok(service);
    }

    /** Delegates to the table. */
    method GetByID(id: string) returns (r: Result<Service>)
      ensures id in repo.services ==> r == Ok(repo.services[id])
      ensures id !in repo.services ==> r == Err(NotFound)
    {
      r := repo.GetByID(id);
    }

    /** Validates before the lookup, overwrites both fields of the stored object, saves it
        (stamping the time and incrementing the revision) and returns the record read back.
        Only the record under `id` may change. */
    method Update(id: string, req: UpdateServiceRequest, now: int) returns (r: Result<Service>)
      requires repo.Valid()
      modifies repo, if id in repo.services then {repo.services[id]} else {}
      ensures repo.Valid() && repo.services == old(repo.services)
      ensures ValidateUpdateServiceRequest(req).Some? ==>
        r == Err(ValidateUpdateServiceRequest(req).value) &&
        (id in repo.services ==> unchanged(repo.services[id]))
      ensures ValidateUpdateServiceRequest(req).None? && id !in old(repo.services) ==> r == Err(NotFound)
      ensures ValidateUpdateServiceRequest(req).None? && id in old(repo.services) ==>
        r == Ok(repo.services[id]) &&
        r.value.Row() == old(r.value.Row()).(name := req.name, description := req.description,
                                              revision := old(r.value.revision) + 1,
                                              updatedAt := At(now))
    {
      var err := ValidateUpdateServiceRequest(req);
      match err {
        case Some(e) => return Err(e);
        case None =>
      }
      var got := repo.GetByID(id);
      match got {
        case Err(e) => return Err(e);
        case Ok(service) => r := UpdateStored(id, service, req, now);
      }
    }

    /** Update once the stored object under `id` is in hand: both fields written, then the
        save. */
    method UpdateStored(id: string, service: Service, req: UpdateServiceRequest, now: int) returns (r: Result<Service>)
      requires repo.Valid() && id in repo.services && repo.services[id] == service
      modifies repo, service
      ensures repo.Valid() && repo.services == old(repo.services)
      ensures r == Ok(service)
      ensures service.Row() == old(service.Row()).(name := req.name, description := req.description,
                                                    revision := old(service.revision) + 1, updatedAt := At(now))
    {
      assert Hex(service.id) == id;
      Overwrite(service, req);
      var saveErr := repo.Update(service, now);
      match saveErr {
        case Some(e) => return Err(e);
        case None =>
      }
      r := repo.GetByID(id);
    }

    /** The field writes of Update on the stored object. */
    method Overwrite(service: Service, req: UpdateServiceRequest)
      modifies service`name, service`description
      ensures service.Row() == old(service.Row()).(name := req.name, description := req.description)
    {
      service.name := req.name;
      service.description := req.description;
    }

    /** Looks the service up first, so a missing service outranks a bad field; then checks
        and writes the provided name, then checks and writes the provided description, then
        saves and reads back. A failing description check returns its error after the name
        has already been written into the stored object, and nothing is saved. */
    method Patch(id: string, req: PatchServiceRequest, now: int) returns (r: Result<Service>)
      requires repo.Valid()
      modifies repo, if id in repo.services then {repo.services[id]} else {}
      ensures repo.Valid() && repo.services == old(repo.services)
      ensures id !in old(repo.services) ==> r == Err(NotFound)
      ensures id in old(repo.services) && PatchError(req).Some? ==>
        r == Err(PatchError(req).value) &&
        repo.services[id].Row() == PartlyPatched(old(repo.services[id].Row()), req)
      ensures id in old(repo.services) && PatchError(req).None? ==>
        r == Ok(repo.services[id]) &&
        r.value.Row() == Patched(old(r.value.Row()), req).(revision := old(r.value.revision) + 1,
                                                            updatedAt := At(now))
    {
      var got := repo.GetByID(id);
      match got {
        case Err(e) => return Err(e);
        case Ok(service) => r := PatchStored(id, service, req, now);
      }
    }

    /** Patch once the stored object under `id` is in hand. */
    method PatchStored(id: string, service: Service, req: PatchServiceRequest, now: int) returns (r: Result<Service>)
      requires repo.Valid() && id in repo.services && repo.services[id] == service
      modifies repo, service
      ensures repo.Valid() && repo.services == old(repo.services)
      ensures PatchError(req).Some? ==>
        r == Err(PatchError(req).value) && service.Row() == PartlyPatched(old(service.Row()), req)
      ensures PatchError(req).None? ==>
        r == Ok(service) &&
        service.Row() == Patched(old(service.Row()), req).(revision := old(service.revision) + 1,
                                                            updatedAt := At(now))
    {
      r := PatchFields(service, req);
      if r.Err? {
        return;
      }
      var saveErr := repo.Update(service, now);
      match saveErr {
        case Some(e) => return Err(e);
        case None =>
      }
      r := repo.GetByID(id);
    }

    /** The field checks and writes of Patch on the fetched object; `Ok(service)` when all
        provided fields passed. */
    method PatchFields(service: Service, req: PatchServiceRequest) returns (r: Result<Service>)
      modifies service`name, service`description
      ensures PatchError(req).Some? ==>
        r == Err(PatchError(req).value) && service.Row() == PartlyPatched(old(service.Row()), req)
      ensures PatchError(req).None? ==> r == Ok(service) && service.Row() == Patched(old(service.Row()), req)
    {
      match req.name {
        case Some(n) =>
          if |n| == 0 {
            return Err(NameRequired);
          }
          if |n| > MaxNameLength {
            return Err(NameTooLong);
          }
          service.name := n;
        case None =>
      }
      match req.description {
        case Some(d) =>
          if |d| == 0 {
            return Err(DescriptionRequired);
          }
          if |d| > MaxDescriptionLength {
            return Err(DescriptionTooLong);
          }
          service.description := d;
        case None =>
      }
      return Ok(service);
    }

    /** ErrInvalidID, with the table untouched, unless the id is 24 hex digits; otherwise
        the table's Delete. */
    method Delete(id: string) returns (err: Option<Error>)
      requires repo.Valid()
      modifies repo
      ensures repo.Valid()
      ensures !IsObjectIDHex(id) ==> err == Some(InvalidID) && repo.services == old(repo.services)
      ensures IsObjectIDHex(id) && id !in old(repo.services) ==>
        err == Some(NotFound) && repo.services == old(repo.services)
      ensures IsObjectIDHex(id) && id in old(repo.services) ==>
        err == None && repo.services == old(repo.services) - {id}
    {
      match ObjectIDFromHex(id) {
        case None => return Some(InvalidID);
        case Some(_) =>
      }
      err := repo.Delete(id);
    }

    /** Rejects a non-empty sort outside name/created_at/updated_at before the table is
        read; otherwise applies the defaults and returns the table's page. A negative page or
        limit makes Go's slice expression panic, so both must be non-negative. */
    method List(params: ListParams) returns (r: Result<PaginatedResult<ServiceRow>>, ghost keys: seq<string>)
      requires params.pagination.page >= 0 && params.pagination.limit >= 0
      ensures params.sort != "" && params.sort !in ValidSortFields ==> r == Err(InvalidSortField)
      ensures params.sort == "" || params.sort in ValidSortFields ==>
        Enumerates(keys, repo.Rows()) &&
        r == Ok(NewPaginatedResult(PageOf(Project(keys, repo.Rows()), ListDefaults(params).pagination),
                                   |repo.services|, ListDefaults(params).pagination))
    {
      keys := [];
      if params.sort != "" {
        var valid := IsValidSortField(params.sort);
        if !valid {
          return Err(InvalidSortField), keys;
        }
      }
      var p := params;
      if p.sort == "" {
        p := p.(sort := "created_at");
      }
      if p.order == "" {
        p := p.(order := "desc");
      }
      if p.pagination.limit == 0 {
        p := p.(pagination := p.pagination.(limit := 20));
      }
      if p.pagination.page == 0 {
        p := p.(pagination := p.pagination.(page := 1));
      }
      if p.pagination.limit > 100 {
        p := p.(pagination := p.pagination.(limit := 100));
      }
      assert p == ListDefaults(params);
      var page;
      page, keys := repo.List(p);
      return Ok(page), keys;
    }
  }
}
