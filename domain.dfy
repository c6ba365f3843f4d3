/** The stored entities of the service catalogue (internal/domain/service.go, version.go,
    service_version.go). A record is a class because the repositories hand out the stored
    object itself, so a caller's field writes land in the table; the `...Row` datatypes are
    the struct values that `List` copies out. */
module Domain {
  import opened Primitive

  // ---------------------------------------------------------------------------
  // Service
  // ---------------------------------------------------------------------------

  datatype ServiceRow = ServiceRow(id: ObjectID, name: string, description: string, revision: int,
                                   createdAt: Time, updatedAt: Time)

  class Service {
    var id: ObjectID
    var name: string
    var description: string
    var revision: int
    var createdAt: Time
    var updatedAt: Time

    /** A `&domain.Service{...}` literal. */
    constructor (id: ObjectID, name: string, description: string, revision: int,
                 createdAt: Time, updatedAt: Time)
      ensures Row() == ServiceRow(id, name, description, revision, createdAt, updatedAt)
    {
      this.id := id;
      this.name := name;
      this.description := description;
      this.revision := revision;
      this.createdAt := createdAt;
      this.updatedAt := updatedAt;
    }

    /** The struct value `*s`. */
    function Row(): ServiceRow
      reads this
    {
      ServiceRow(id, name, description, revision, createdAt, updatedAt)
    }
  }

  datatype ServiceResponse = ServiceResponse(id: string, name: string, description: string,
                                             revision: int, createdAt: Time, updatedAt: Time)

  /** Service.ToResponse: the id in hex, every other field copied. */
  function ServiceToResponse(s: ServiceRow): (r: ServiceResponse)
    ensures ObjectIDFromHex(r.id) == Some(s.id)
    ensures r.name == s.name && r.description == s.description && r.revision == s.revision
    ensures r.createdAt == s.createdAt && r.updatedAt == s.updatedAt
  {
    FromHexOfHex(s.id);
    ServiceResponse(Hex(s.id), s.name, s.description, s.revision, s.createdAt, s.updatedAt)
  }

  /** A service response loses nothing: it determines the service it was made from. */
  lemma ServiceToResponseInjective(a: ServiceRow, b: ServiceRow)
    requires ServiceToResponse(a) == ServiceToResponse(b)
    ensures a == b
  {
    HexInjective(a.id, b.id);
  }

  /** The request bodies of the service endpoints; a Patch field left out of the JSON is
      None. */
  datatype CreateServiceRequest = CreateServiceRequest(name: string, description: string)
  datatype UpdateServiceRequest = UpdateServiceRequest(name: string, description: string)
  datatype PatchServiceRequest = PatchServiceRequest(name: Option<string>, description: Option<string>)

  // ---------------------------------------------------------------------------
  // Version
  // ---------------------------------------------------------------------------

  datatype VersionRow = VersionRow(id: ObjectID, serviceId: ObjectID, version: string, createdAt: Time)

  class Version {
    var id: ObjectID
    var serviceId: ObjectID
    var version: string
    var createdAt: Time

    /** A `&domain.Version{...}` literal. */
    constructor (id: ObjectID, serviceId: ObjectID, version: string, createdAt: Time)
      ensures Row() == VersionRow(id, serviceId, version, createdAt)
    {
      this.id := id;
      this.serviceId := serviceId;
      this.version := version;
      this.createdAt := createdAt;
    }

    function Row(): VersionRow
      reads this
    {
      VersionRow(id, serviceId, version, createdAt)
    }
  }

  datatype VersionResponse = VersionResponse(id: string, serviceId: string, version: string, createdAt: Time)

  /** Version.ToResponse: both ids in hex, the version string and timestamp copied. */
  function VersionToResponse(v: VersionRow): (r: VersionResponse)
    ensures ObjectIDFromHex(r.id) == Some(v.id) && ObjectIDFromHex(r.serviceId) == Some(v.serviceId)
    ensures r.version == v.version && r.createdAt == v.createdAt
  {
    FromHexOfHex(v.id);
    FromHexOfHex(v.serviceId);
    VersionResponse(Hex(v.id), Hex(v.serviceId), v.version, v.createdAt)
  }

  datatype CreateVersionRequest = CreateVersionRequest(version: string)

  lemma VersionToResponseInjective(a: VersionRow, b: VersionRow)
    requires VersionToResponse(a) == VersionToResponse(b)
    ensures a == b
  {
    HexInjective(a.id, b.id);
    HexInjective(a.serviceId, b.serviceId);
  }

  // ---------------------------------------------------------------------------
  // ServiceVersion: a snapshot of a service at one revision
  // ---------------------------------------------------------------------------

  datatype ServiceVersionRow = ServiceVersionRow(id: ObjectID, serviceId: ObjectID, revision: int,
                                                 name: string, description: string, createdAt: Time)

  class ServiceVersion {
    var id: ObjectID
    var serviceId: ObjectID
    var revision: int
    var name: string
    var description: string
    var createdAt: Time

    /** A `&domain.ServiceVersion{...}` literal. */
    constructor (id: ObjectID, serviceId: ObjectID, revision: int, name: string, description: string,
                 createdAt: Time)
      ensures Row() == ServiceVersionRow(id, serviceId, revision, name, description, createdAt)
    {
      this.id := id;
      this.serviceId := serviceId;
      this.revision := revision;
      this.name := name;
      this.description := description;
      this.createdAt := createdAt;
    }

    function Row(): ServiceVersionRow
      reads this
    {
      ServiceVersionRow(id, serviceId, revision, name, description, createdAt)
    }
  }
}
