/** The in-memory table of service snapshots
    (internal/repository/mocks/service_version_repository_mock.go). */
module ServiceVersionRepositoryMock {
  import opened Primitive
  import opened Errors
  import opened Pagination
  import opened Tables
  import opened Domain

  class MockServiceVersionRepository {
    var versions: map<string, ServiceVersion>

    /** Whether the snapshot under key `k` belongs to the service whose hex id is `serviceId`. */
    ghost predicate Matches(k: string, serviceId: string)
      reads this, versions.Values`serviceId
    {
      k in versions && Hex(versions[k].serviceId) == serviceId
    }

    /** The snapshots of one service, as values. */
    ghost function ServiceRows(serviceId: string): map<string, ServiceVersionRow>
      reads this, versions.Values
    {
      map k | k in versions && Hex(versions[k].serviceId) == serviceId :: versions[k].Row()
    }

    constructor ()
      ensures versions == map[]
    {
      versions := map[];
    }

    /** Fills a zero id from `freshId`, stamps `CreatedAt` only when it is still the zero
        time, and stores the record under its hex id. */
    method Create(version: ServiceVersion, freshId: ObjectID, now: int)
      modifies this, version
      ensures version.id == if old(IsZero(version.id)) then freshId else old(version.id)
      ensures version.createdAt == if old(version.createdAt) == ZeroTime then At(now) else old(version.createdAt)
      ensures version.serviceId == old(version.serviceId) && version.revision == old(version.revision)
      ensures version.name == old(version.name) && version.description == old(version.description)
      ensures versions == old(versions)[Hex(version.id) := version]
    {
      if IsZero(version.id) {
        version.id := freshId;
      }
      if version.createdAt == ZeroTime {
        version.createdAt := At(now);
      }
      versions := versions[Hex(version.id) := version];
    }

    method GetByID(id: string) returns (r: Result<ServiceVersion>)
      ensures id in versions ==> r == Ok(versions[id])
      ensures id !in versions ==> r == Err(NotFound)
    {
      if id in versions {
        return Ok(versions[id]);
      }
      return Err(NotFound);
    }

    /** Some stored snapshot of the service at that revision (the first one met in map
        order), or ErrNotFound when there is none. */
    method GetByServiceIDAndRevision(serviceId: string, revision: int) returns (r: Result<ServiceVersion>)
      ensures r.Ok? ==> (exists k :: Matches(k, serviceId) && versions[k] == r.value) && r.value.revision == revision
      ensures r.Err? ==> r.error == NotFound
      ensures r.Err? <==> !exists k :: Matches(k, serviceId) && versions[k].revision == revision
    {
      var remaining := versions.Keys;
      while remaining != {}
        invariant remaining <= versions.Keys
        invariant forall k :: Matches(k, serviceId) && k !in remaining ==> versions[k].revision != revision
        decreases |remaining|
      {
        var k :| k in remaining;
        if Hex(versions[k].serviceId) == serviceId && versions[k].revision == revision {
          assert Matches(k, serviceId);
          return Ok(versions[k]);
        }
        remaining := remaining - {k};
      }
      return Err(NotFound);
    }

    /** The filtering loop of ListByServiceID: the snapshots of one service copied out, each
        once, in map order (named by the ghost `keys`). */
    method CopyService(serviceId: string) returns (all: seq<ServiceVersionRow>, ghost keys: seq<string>)
      ensures Enumerates(keys, ServiceRows(serviceId))
      ensures all == Project(keys, ServiceRows(serviceId))
    {
      var remaining := versions.Keys;
      all := [];
      keys := [];
      while remaining != {}
        invariant remaining <= versions.Keys
        invariant |keys| == |all| && Distinct(keys)
        invariant forall i :: 0 <= i < |keys| ==>
          keys[i] in versions && keys[i] !in remaining && Hex(versions[keys[i]].serviceId) == serviceId &&
          all[i] == versions[keys[i]].Row()
        invariant forall k :: k in versions && Hex(versions[k].serviceId) == serviceId ==> k in remaining || k in keys
        decreases |remaining|
      {
        var k :| k in remaining;
        if Hex(versions[k].serviceId) == serviceId {
          all := all + [versions[k].Row()];
          keys := keys + [k];
        }
        remaining := remaining - {k};
      }
    }

    /** Filters by service, counts the matches as the total, then returns the requested page
        of them. Page and limit must be positive: on a negative offset Go's slice expression
        panics, and a zero limit divides by zero. */
    method ListByServiceID(serviceId: string, params: PaginationParams)
      returns (r: PaginatedResult<ServiceVersionRow>, ghost keys: seq<string>)
      requires params.page >= 1 && params.limit >= 1
      ensures Enumerates(keys, ServiceRows(serviceId))
      ensures r == NewPaginatedResult(PageOf(Project(keys, ServiceRows(serviceId)), params),
                                      |ServiceRows(serviceId)|, params)
      ensures |r.data| == Min(params.limit, Max(0, |ServiceRows(serviceId)| - Offset(params)))
    {
      var all;
      all, keys := CopyService(serviceId);
      EnumeratesLength(keys, ServiceRows(serviceId));
      r := NewPaginatedResult(PageOf(all, params), |all|, params);
    }

    /** Deletes, inside the range loop, every snapshot of one service and keeps all others. */
    method DeleteByServiceID(serviceId: string)
      modifies this
      ensures versions == map k | k in old(versions) && Hex(old(versions)[k].serviceId) != serviceId :: old(versions)[k]
    {
      var remaining := versions.Keys;
      while remaining != {}
        invariant remaining <= old(versions).Keys
        invariant forall k :: k in versions <==>
          k in old(versions) && (k in remaining || Hex(old(versions)[k].serviceId) != serviceId)
        invariant forall k :: k in versions ==> versions[k] == old(versions)[k]
        decreases |remaining|
      {
        var k :| k in remaining;
        if Hex(versions[k].serviceId) == serviceId {
          versions := versions - {k};
        }
        remaining := remaining - {k};
      }
    }

    /** Test setup: stores the record as given, filling in only a zero id. */
    method AddVersion(version: ServiceVersion, freshId: ObjectID)
      modifies this, version`id
      ensures version.id == if old(IsZero(version.id)) then freshId else old(version.id)
      ensures versions == old(versions)[Hex(version.id) := version]
    {
      if IsZero(version.id) {
        version.id := freshId;
      }
      versions := versions[Hex(version.id) := version];
    }

    method Reset()
      modifies this
      ensures versions == map[]
    {
      versions := map[];
    }
  }
}
