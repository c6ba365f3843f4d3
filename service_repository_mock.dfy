/** The in-memory service table the service and handler layers run against
    (internal/repository/mocks/service_repository_mock.go). */
module ServiceRepositoryMock {
  import opened Primitive
  import opened Errors
  import opened Pagination
  import opened Tables
  import opened Domain

  class MockServiceRepository {
    var services: map<string, Service>

    /** Every record is stored under the hex form of its own id, which is never the zero id. */
    ghost predicate Valid()
      reads this, services.Values`id
    {
      forall k :: k in services ==> Hex(services[k].id) == k && !IsZero(services[k].id)
    }

    /** The table as values. */
    ghost function Rows(): map<string, ServiceRow>
      reads this, services.Values
    {
      map k | k in services :: services[k].Row()
    }

    constructor ()
      ensures services == map[] && Valid()
    {
      services := map[];
    }

    /** Stores `service` under its hex id; `freshId` is the value `primitive.NewObjectID`
        would return, `now` the clock reading in nanoseconds. */
    method Create(service: Service, freshId: ObjectID, now: int)
      requires Valid() && !IsZero(freshId)
      modifies this, service
      ensures Valid()
      ensures service.id == if old(IsZero(service.id)) then freshId else old(service.id)
      ensures service.name == old(service.name) && service.description == old(service.description)
      ensures service.revision == 1 && service.createdAt == At(now) && service.updatedAt == At(now)
      ensures services == old(services)[Hex(service.id) := service]
    {
      Stamp(service, freshId, now);
      services := services[Hex(service.id) := service];
    }

    /** Fills a zero id and stamps a record for Create. A stored record never has the zero
        id, so every stored record keeps its id. */
    method Stamp(service: Service, freshId: ObjectID, now: int)
      requires Valid() && !IsZero(freshId)
      modifies service`id, service`createdAt, service`updatedAt, service`revision
      ensures Valid()
      ensures service.id == if old(IsZero(service.id)) then freshId else old(service.id)
      ensures service.revision == 1 && service.createdAt == At(now) && service.updatedAt == At(now)
    {
      if IsZero(service.id) {
        assert service !in services.Values;
        service.id := freshId;
      }
      service.createdAt := At(now);
      service.updatedAt := At(now);
      service.revision := 1;
    }

    /** The stored object itself, or ErrNotFound; a malformed id is simply not a key. */
    method GetByID(id: string) returns (r: Result<Service>)
      ensures id in services ==> r == Ok(services[id])
      ensures id !in services ==> r == Err(NotFound)
    {
      if id in services {
        return Ok(services[id]);
      }
      return Err(NotFound);
    }

    /** Replaces the entry under the record's hex id, stamping `UpdatedAt` and incrementing
        `Revision`; an absent id is ErrNotFound and touches nothing. */
    method Update(service: Service, now: int) returns (err: Option<Error>)
      requires Valid()
      modifies this, service
      ensures Valid()
      ensures old(Hex(service.id)) !in old(services) ==>
        err == Some(NotFound) && services == old(services) && unchanged(service)
      ensures old(Hex(service.id)) in old(services) ==>
        err == None &&
        service.Row() == old(service.Row()).(revision := old(service.revision) + 1, updatedAt := At(now)) &&
        services == old(services)[Hex(service.id) := service]
    {
      var id := Hex(service.id);
      if id !in services {
        return Some(NotFound);
      }
      HexInjective(services[id].id, service.id);
      service.updatedAt := At(now);
      service.revision := service.revision + 1;
      services := services[id := service];
      forall k | k in old(services) && k != id
        ensures old(services)[k] != service
      {
      }
      return None;
    }

    /** Removes the key `id` and no other; an absent id is ErrNotFound. */
    method Delete(id: string) returns (err: Option<Error>)
      requires Valid()
      modifies this
      ensures Valid()
      ensures id !in old(services) ==> err == Some(NotFound) && services == old(services)
      ensures id in old(services) ==> err == None && services == old(services) - {id}
    {
      if id !in services {
        return Some(NotFound);
      }
      services := services - {id};
      return None;
    }

    /** The `for _, s := range m.services` loop: every record copied out once, in map order
        (named by the ghost `keys`). */
    method CopyAll() returns (all: seq<ServiceRow>, ghost keys: seq<string>)
      ensures Enumerates(keys, Rows())
      ensures all == Project(keys, Rows())
    {
      var remaining := services.Keys;
      all := [];
      keys := [];
      while remaining != {}
        invariant remaining <= services.Keys
        invariant |keys| == |all| && Distinct(keys)
        invariant forall i :: 0 <= i < |keys| ==>
          keys[i] in services && keys[i] !in remaining && all[i] == services[keys[i]].Row()
        invariant forall k :: k in services ==> k in remaining || k in keys
        decreases |remaining|
      {
        var k :| k in remaining;
        all := all + [services[k].Row()];
        keys := keys + [k];
        remaining := remaining - {k};
      }
    }

    /** Copies every record out, then returns the requested page; search, name and sort are
        ignored. Page and limit must be positive: on a negative offset Go's slice expression
        panics, and a zero limit divides by zero. */
    method List(params: ListParams) returns (r: PaginatedResult<ServiceRow>, ghost keys: seq<string>)
      requires params.pagination.page >= 1 && params.pagination.limit >= 1
      ensures Enumerates(keys, Rows())
      ensures r == NewPaginatedResult(PageOf(Project(keys, Rows()), params.pagination), |services|, params.pagination)
      ensures |r.data| == Min(params.pagination.limit, Max(0, |services| - Offset(params.pagination)))
    {
      var all;
      all, keys := CopyAll();
      EnumeratesLength(keys, Rows());
      assert Rows().Keys == services.Keys;
      assert |Rows()| == |Rows().Keys| == |services.Keys| == |services|;
      r := NewPaginatedResult(PageOf(all, params.pagination), |all|, params.pagination);
    }

    /** Test setup: stores the record as given, filling in only a zero id. */
    method AddService(service: Service, freshId: ObjectID)
      requires Valid() && !IsZero(freshId)
      modifies this, service
      ensures Valid()
      ensures service.id == if old(IsZero(service.id)) then freshId else old(service.id)
      ensures service.Row() == old(service.Row()).(id := service.id)
      ensures services == old(services)[Hex(service.id) := service]
    {
      if IsZero(service.id) {
        service.id := freshId;
      }
      services := services[Hex(service.id) := service];
      forall k | k in old(services) && k != Hex(service.id)
        ensures old(services)[k] != service
      {
      }
    }

    method Reset()
      modifies this
      ensures services == map[] && Valid()
    {
      services := map[];
    }
  }
}
