/** The service registry: the registered services keyed by id, and the data
    cache holding at most one load result per service. */
module Manager {
  import opened Traits
  import Ecr

  /** Every service implementation the registry can hold. */
  datatype Service = EcrService

  function MetadataOf(s: Service): ServiceMetadata
  {
    match s
    case EcrService => Ecr.Metadata()
  }

  /** The key a service is registered under: the id of its metadata. */
  function IdOf(s: Service): ServiceId
  {
    ServiceId(MetadataOf(s).id)
  }

  /** What loading `vs` with service `s` against `remote` yields. */
  ghost predicate ServiceLoaded(s: Service, vs: ViewState, remote: Ecr.Remote, r: Result<Ecr.ResourceData>)
  {
    match s
    case EcrService => Ecr.LoadedFrom(vs, remote, r)
  }

  class ServiceManager {
    var services: map<ServiceId, Service>
    var serviceData: map<ServiceId, Ecr.ResourceData>

    constructor ()
      ensures services == map[] && serviceData == map[]
    {
      services := map[];
      serviceData := map[];
    }

    /** Registers `s` under its metadata id, replacing any service already
        registered under that id. */
    method RegisterService(s: Service)
      modifies this`services
      ensures services == old(services)[IdOf(s) := s]
      ensures HasService(IdOf(s)) && GetService(IdOf(s)) == Some(s)
    {
      var metadata := MetadataOf(s);
      var id := ServiceId(metadata.id);
      services := services[id := s];
    }

    function GetService(id: ServiceId): (r: Option<Service>)
      reads this
      ensures r.Some? <==> id in services
      ensures r.Some? ==> r.value == services[id]
    {
      if id in services then Some(services[id]) else None
    }

    /** The metadata of every registered service, one entry per service, in
        the map's unspecified iteration order. */
    method GetServiceMetadata() returns (ms: seq<ServiceMetadata>)
      ensures |ms| == |services|
      ensures forall i :: 0 <= i < |ms| ==> exists id :: id in services && ms[i] == MetadataOf(services[id])
      ensures forall id :: id in services ==> MetadataOf(services[id]) in ms
    {
      ms := [];
      var remaining := services.Keys;
      ghost var visited: set<ServiceId> := {};
      while remaining != {}
        invariant remaining !! visited && remaining + visited == services.Keys
        invariant |ms| == |visited|
        invariant forall i :: 0 <= i < |ms| ==> exists id :: id in visited && ms[i] == MetadataOf(services[id])
        invariant forall id :: id in visited ==> MetadataOf(services[id]) in ms
        decreases |remaining|
      {
        var id :| id in remaining;
        ms := ms + [MetadataOf(services[id])];
        remaining := remaining - {id};
        visited := visited + {id};
      }
      assert visited == services.Keys;
    }

    /** Some registered service whose command is `command`, with its id; None
        exactly when no registered service has that command. */
    method GetServiceByCommand(command: string) returns (r: Option<(ServiceId, Service)>)
      ensures r.Some? ==> r.value.0 in services && services[r.value.0] == r.value.1
      ensures r.Some? ==> MetadataOf(r.value.1).command == command
      ensures r.None? <==> forall id :: id in services ==> MetadataOf(services[id]).command != command
    {
      if id :| id in services && MetadataOf(services[id]).command == command {
        r := Some((id, services[id]));
      } else {
        r := None;
      }
    }

    /** Loads `vs` with the service registered under `id` and, on success,
        replaces the cache slot of `id` (not of `vs`'s service) with the
        result. An unregistered id changes nothing and succeeds; a failed
        load changes nothing and reports the failure. */
    method LoadServiceData(id: ServiceId, vs: ViewState, remote: Ecr.Remote) returns (r: Result<()>)
      modifies this`serviceData
      ensures id !in services ==> r == Ok(()) && serviceData == old(serviceData)
      ensures id in services && r.Err? ==>
        serviceData == old(serviceData) && ServiceLoaded(services[id], vs, remote, Err(r.error))
      ensures id in services && r.Ok? ==>
        && id in serviceData
        && serviceData == old(serviceData)[id := serviceData[id]]
        && ServiceLoaded(services[id], vs, remote, Ok(serviceData[id]))
    {
      if id in services {
        var service := services[id];
        var loaded: Result<Ecr.ResourceData>;
        match service {
          case EcrService => loaded := Ecr.LoadData(vs, remote);
        }
        match loaded {
          case Err(e) =>
            r := Err(e);
          case Ok(data) =>
            serviceData := serviceData[id := data];
            r := Ok(());
        }
      } else {
        r := Ok(());
      }
    }

    function GetServiceData(id: ServiceId): (r: Option<Ecr.ResourceData>)
      reads this
      ensures r.Some? <==> id in serviceData
      ensures r.Some? ==> r.value == serviceData[id]
    {
      if id in serviceData then Some(serviceData[id]) else None
    }

    /** Drops the cache slot of `id` and no other. */
    method ClearServiceData(id: ServiceId)
      modifies this`serviceData
      ensures serviceData == old(serviceData) - {id}
      ensures GetServiceData(id) == None
    {
      serviceData := serviceData - {id};
    }

    function HasService(id: ServiceId): (b: bool)
      reads this
      ensures b <==> GetService(id).Some?
    {
      id in services
    }

    /** The registered ids, each exactly once, in the map's unspecified
        iteration order. */
    method ListServices() returns (ids: seq<ServiceId>)
      ensures forall id :: id in ids <==> id in services
      ensures |ids| == |services|
      ensures forall i, j :: 0 <= i < j < |ids| ==> ids[i] != ids[j]
    {
      ids := [];
      var remaining := services.Keys;
      ghost var visited: set<ServiceId> := {};
      while remaining != {}
        invariant remaining !! visited && remaining + visited == services.Keys
        invariant forall id :: id in ids <==> id in visited
        invariant |ids| == |visited|
        invariant forall i, j :: 0 <= i < j < |ids| ==> ids[i] != ids[j]
        decreases |remaining|
      {
        var id :| id in remaining;
        ids := ids + [id];
        remaining := remaining - {id};
        visited := visited + {id};
      }
      assert visited == services.Keys;
    }
  }
}
