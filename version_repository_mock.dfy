/** The in-memory version table (internal/repository/mocks/version_repository_mock.go). */
module VersionRepositoryMock {
  import opened Primitive
  import opened Errors
  import opened Tables
  import opened Domain

  class MockVersionRepository {
    var versions: map<string, Version>

    /** The versions belonging to the service whose hex id is `serviceId`, as values. */
    ghost function ServiceRows(serviceId: string): map<string, VersionRow>
      reads this, versions.Values
    {
      map k | k in versions && Hex(versions[k].serviceId) == serviceId :: versions[k].Row()
    }

    constructor ()
      ensures versions == map[]
    {
      versions := map[];
    }

    /** Stores `version` under its hex id, filling a zero id from `freshId` and stamping
        `CreatedAt`; there is no duplicate check. */
    method Create(version: Version, freshId: ObjectID, now: int)
      modifies this, version
      ensures version.id == if old(IsZero(version.id)) then freshId else old(version.id)
      ensures version.serviceId == old(version.serviceId) && version.version == old(version.version)
      ensures version.createdAt == At(now)
      ensures versions == old(versions)[Hex(version.id) := version]
    {
      if IsZero(version.id) {
        version.id := freshId;
      }
      version.createdAt := At(now);
      versions := versions[Hex(version.id) := version];
    }

    method GetByID(id: string) returns (r: Result<Version>)
      ensures id in versions ==> r == Ok(versions[id])
      ensures id !in versions ==> r == Err(NotFound)
    {
      if id in versions {
        return Ok(versions[id]);
      }
      return Err(NotFound);
    }

    /** Removes the key `id` and no other; an absent id is ErrNotFound. */
    method Delete(id: string) returns (err: Option<Error>)
      modifies this
      ensures id !in old(versions) ==> err == Some(NotFound) && versions == old(versions)
      ensures id in old(versions) ==> err == None && versions == old(versions) - {id}
    {
      if id !in versions {
        return Some(NotFound);
      }
      versions := versions - {id};
      return None;
    }

    /** Exactly the versions of one service, each once, in map order (named by the ghost
        `keys`); as many as CountByServiceID reports. */
    method ListByServiceID(serviceId: string) returns (r: seq<VersionRow>, ghost keys: seq<string>)
      ensures Enumerates(keys, ServiceRows(serviceId))
      ensures r == Project(keys, ServiceRows(serviceId))
      ensures |r| == |ServiceRows(serviceId)|
    {
      var rows := map k | k in versions :: versions[k].Row();
      var remaining := rows.Keys;
      r := [];
      keys := [];
      while remaining != {}
        invariant remaining <= rows.Keys
        invariant |keys| == |r| && Distinct(keys)
        invariant forall i :: 0 <= i < |keys| ==>
          keys[i] in rows && keys[i] !in remaining && Hex(rows[keys[i]].serviceId) == serviceId &&
          r[i] == rows[keys[i]]
        invariant forall k :: k in rows && Hex(rows[k].serviceId) == serviceId ==> k in remaining || k in keys
        decreases |remaining|
      {
        var k :| k in remaining;
        if Hex(rows[k].serviceId) == serviceId {
          r := r + [rows[k]];
          keys := keys + [k];
        }
        remaining := remaining - {k};
      }
      KeysOfService(serviceId, rows, keys);
    }

    /** The number of versions of one service. */
    method CountByServiceID(serviceId: string) returns (count: int)
      ensures count == |ServiceRows(serviceId)|
    {
      var rows := map k | k in versions :: versions[k].Row();
      var remaining := rows.Keys;
      count := 0;
      ghost var keys: seq<string> := [];
      while remaining != {}
        invariant remaining <= rows.Keys
        invariant count == |keys| && Distinct(keys)
        invariant forall i :: 0 <= i < |keys| ==>
          keys[i] in rows && keys[i] !in remaining && Hex(rows[keys[i]].serviceId) == serviceId
        invariant forall k :: k in rows && Hex(rows[k].serviceId) == serviceId ==> k in remaining || k in keys
        decreases |remaining|
      {
        var k :| k in remaining;
        if Hex(rows[k].serviceId) == serviceId {
          count := count + 1;
          keys := keys + [k];
        }
        remaining := remaining - {k};
      }
      KeysOfService(serviceId, rows, keys);
    }

    /** A scan of the table's rows that met every version of the service, each once,
        enumerated the service's rows. */
    lemma KeysOfService(serviceId: string, rows: map<string, VersionRow>, keys: seq<string>)
      requires rows == map k | k in versions :: versions[k].Row()
      requires Distinct(keys)
      requires forall i :: 0 <= i < |keys| ==> keys[i] in rows && Hex(rows[keys[i]].serviceId) == serviceId
      requires forall k :: k in rows && Hex(rows[k].serviceId) == serviceId ==> k in keys
      ensures Enumerates(keys, ServiceRows(serviceId)) && |keys| == |ServiceRows(serviceId)|
      ensures forall i :: 0 <= i < |keys| ==> ServiceRows(serviceId)[keys[i]] == rows[keys[i]]
    {
      EnumeratesLength(keys, ServiceRows(serviceId));
    }

    /** Deletes, inside the range loop, every version of one service and keeps all others. */
    method DeleteByServiceID(serviceId: string)
      modifies this
      ensures versions == map k | k in old(versions) && Hex(old(versions)[k].serviceId) != serviceId :: old(versions)[k]
    {
      var remaining := versions.Keys;
      while remaining != {}
        invariant remaining <= old(versions).Keys
        invariant forall k :: k in versions <==>
          k in old(versions) && (k in remaining || Hex(old(versions)[k].serviceId) != serviceId)
        invariant forall k :: k in versions ==> versions[k] == old(versions)[k]
        decreases |remaining|
      {
        var k :| k in remaining;
        if Hex(versions[k].serviceId) == serviceId {
          versions := versions - {k};
        }
        remaining := remaining - {k};
      }
    }

    /** Whether some stored version has both the service id and the version string. */
    method ExistsByServiceIDAndVersion(serviceId: string, version: string) returns (b: bool)
      ensures b <==> exists k :: k in versions && Hex(versions[k].serviceId) == serviceId && versions[k].version == version
    {
      var remaining := versions.Keys;
      while remaining != {}
        invariant remaining <= versions.Keys
        invariant forall k :: k in versions && k !in remaining ==>
          !(Hex(versions[k].serviceId) == serviceId && versions[k].version == version)
        decreases |remaining|
      {
        var k :| k in remaining;
        if Hex(versions[k].serviceId) == serviceId && versions[k].version == version {
          return true;
        }
        remaining := remaining - {k};
      }
      return false;
    }

    /** Test setup: stores the version as given, filling in only a zero id. */
    method AddVersion(version: Version, freshId: ObjectID)
      modifies this, version
      ensures version.id == if old(IsZero(version.id)) then freshId else old(version.id)
      ensures version.Row() == old(version.Row()).(id := version.id)
      ensures versions == old(versions)[Hex(version.id) := version]
    {
      if IsZero(version.id) {
        version.id := freshId;
      }
      versions := versions[Hex(version.id) := version];
    }

    method Reset()
      modifies this
      ensures versions == map[]
    {
      versions := map[];
    }
  }
}
