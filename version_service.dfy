/** The business rules of service versions (internal/service/version_service.go), run
    against the in-memory version and service tables. */
module VersionRules {
  import opened Primitive
  import opened Errors
  import opened Tables
  import opened Domain
  import opened ServiceRepositoryMock
  import opened VersionRepositoryMock

  /** IsDuplicateVersionError. */
  predicate IsDuplicateVersionError(e: Error) {
    e == DuplicateVersion
  }

  class VersionService {
    const versionRepo: MockVersionRepository
    const serviceRepo: MockServiceRepository

    /** NewVersionService. */
    constructor (versionRepo: MockVersionRepository, serviceRepo: MockServiceRepository)
      ensures this.versionRepo == versionRepo && this.serviceRepo == serviceRepo
    {
      this.versionRepo := versionRepo;
      this.serviceRepo := serviceRepo;
    }

    /** Whether some stored version of the service already has this version string. */
    ghost predicate Taken(serviceID: string, version: string)
      reads versionRepo, versionRepo.versions.Values
    {
      exists k :: k in versionRepo.versions && Hex(versionRepo.versions[k].serviceId) == serviceID &&
        versionRepo.versions[k].version == version
    }

    /** Whether the service exists and the version under `versionID` belongs to it: the
        condition under which GetByID and Delete reach the version. */
    ghost predicate Owned(serviceID: string, versionID: string)
      reads this, serviceRepo, versionRepo, versionRepo.versions.Values
    {
      serviceID in serviceRepo.services && versionID in versionRepo.versions &&
      Hex(versionRepo.versions[versionID].serviceId) == serviceID
    }

    /** The checks in order, each stopping the call with nothing stored: an empty version
        string, a service id that is not 24 hex digits, a missing service, a version string
        the service already has. Then a new version of that service is stored. */
    method Create(serviceID: string, req: CreateVersionRequest, freshId: ObjectID, now: int)
      returns (r: Result<Version>)
      requires serviceRepo.Valid()
      modifies versionRepo
      ensures r.Err? ==> versionRepo.versions == old(versionRepo.versions)
      ensures req.version == "" ==> r == Err(VersionRequired)
      ensures req.version != "" && !IsObjectIDHex(serviceID) ==> r == Err(InvalidID)
      ensures req.version != "" && IsObjectIDHex(serviceID) && serviceID !in serviceRepo.services ==>
        r == Err(NotFound)
      ensures req.version != "" && serviceID in serviceRepo.services && old(Taken(serviceID, req.version)) ==>
        r == Err(DuplicateVersion)
      ensures req.version != "" && serviceID in serviceRepo.services && !old(Taken(serviceID, req.version)) ==>
        r.Ok? && fresh(r.value) &&
        r.value.Row() == VersionRow(freshId, serviceRepo.services[serviceID].id, req.version, At(now)) &&
        Hex(r.value.serviceId) == serviceID &&
        versionRepo.versions == old(versionRepo.versions)[Hex(freshId) := r.value] &&
        Owned(serviceID, Hex(freshId))
    {
      if req.version == "" {
        return Err(VersionRequired);
      }
      var parsed := ObjectIDFromHex(serviceID);
      match parsed {
        case None => return Err(InvalidID);
        case Some(serviceObjID) =>
          var service := serviceRepo.GetByID(serviceID);
          match service {
            case Err(e) => return Err(e);
            case Ok(_) =>
          }
          FromHexOfHex(serviceRepo.services[serviceID].id);
          var duplicate := versionRepo.ExistsByServiceIDAndVersion(serviceID, req.version);
          if duplicate {
            return Err(DuplicateVersion);
          }
          var version := new Version(NilObjectID, serviceObjID, req.version, ZeroTime);
          versionRepo.Create(version, freshId, now);
          return Ok(version);
      }
    }

    /** The version, when the service exists and the version belongs to it; ErrNotFound in
        every other case. */
    method GetByID(serviceID: string, versionID: string) returns (r: Result<Version>)
      ensures r.Ok? <==> Owned(serviceID, versionID)
      ensures r.Ok? ==> r.value == versionRepo.versions[versionID]
      ensures r.Err? ==> r.error == NotFound
    {
      var service := serviceRepo.GetByID(serviceID);
      match service {
        case Err(e) => return Err(e);
        case Ok(_) =>
      }
      r := versionRepo.GetByID(versionID);
      match r {
        case Err(_) => return;
        case Ok(version) =>
          if Hex(version.serviceId) != serviceID {
            return Err(NotFound);
          }
      }
    }

    /** Removes the version under exactly the conditions GetByID finds it; otherwise
        ErrNotFound and nothing is deleted. */
    method Delete(serviceID: string, versionID: string) returns (err: Option<Error>)
      modifies versionRepo
      ensures old(Owned(serviceID, versionID)) ==>
        err == None && versionRepo.versions == old(versionRepo.versions) - {versionID}
      ensures !old(Owned(serviceID, versionID)) ==>
        err == Some(NotFound) && versionRepo.versions == old(versionRepo.versions)
    {
      var service := serviceRepo.GetByID(serviceID);
      match service {
        case Err(e) => return Some(e);
        case Ok(_) =>
      }
      var version := versionRepo.GetByID(versionID);
      match version {
        case Err(e) => return Some(e);
        case Ok(v) =>
          if Hex(v.serviceId) != serviceID {
            return Some(NotFound);
          }
      }
      err := versionRepo.Delete(versionID);
    }

    /** ErrNotFound for a missing service, otherwise every version of it, each once. */
    method ListByServiceID(serviceID: string) returns (r: Result<seq<VersionRow>>, ghost keys: seq<string>)
      ensures serviceID !in serviceRepo.services ==> r == Err(NotFound)
      ensures serviceID in serviceRepo.services ==>
        Enumerates(keys, versionRepo.ServiceRows(serviceID)) &&
        r == Ok(Project(keys, versionRepo.ServiceRows(serviceID)))
    {
      keys := [];
      var service := serviceRepo.GetByID(serviceID);
      match service {
        case Err(e) => return Err(e), keys;
        case Ok(_) =>
      }
      var versions;
      versions, keys := versionRepo.ListByServiceID(serviceID);
      return Ok(versions), keys;
    }
  }
}
