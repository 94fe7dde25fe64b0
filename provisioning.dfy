/** The provisioning sequence of `BlobClient.GetContainerAsync`: create the container, then make
    its blobs publicly readable, then hand back the reference.

    The storage account is a `StorageService` object whose containers map each existing name to
    its public-access level; every request it receives is recorded in `log`. Whether the service
    refuses a request for reasons outside the model (authorization, naming rules, availability)
    is an input `fault` of that request. */
module Provisioning {
  import opened Wrappers
  import opened Storage

  /** `BlobContainerPublicAccessType`: no anonymous access, anonymous read of the whole
      container, or anonymous read of individual blobs. */
  datatype PublicAccess = Off | Container | Blob

  /** A `CloudBlobContainer` reference: it names a container, which may or may not exist. */
  datatype ContainerRef = ContainerRef(name: string)

  /** A request sent to the service. */
  datatype Request = CreateRequest(name: string) | PermissionsRequest(name: string, access: PublicAccess)

  /** The service's answer to `CreateAsync` on `name`: it fails when the container already
      exists (there is no create-if-absent here) or when the service refuses the request. */
  function CreateOutcome(containers: map<string, PublicAccess>, name: string,
                         fault: Option<StorageError>): (o: Outcome<StorageError>)
    ensures o.Pass? <==> name !in containers && fault.None?
    ensures name in containers ==> o == Fail(ContainerAlreadyExists)
  {
    if name in containers then Fail(ContainerAlreadyExists)
    else if fault.Some? then Fail(fault.value)
    else Pass
  }

  /** The service's answer to `SetPermissionsAsync` on `name`: it fails when the container does
      not exist or when the service refuses the request. */
  function SetPermissionsOutcome(containers: map<string, PublicAccess>, name: string,
                                 fault: Option<StorageError>): (o: Outcome<StorageError>)
    ensures o.Pass? <==> name in containers && fault.None?
    ensures name !in containers ==> o == Fail(ContainerNotFound)
  {
    if name !in containers then Fail(ContainerNotFound)
    else if fault.Some? then Fail(fault.value)
    else Pass
  }

  class StorageService {
    var containers: map<string, PublicAccess>
    var log: seq<Request>

    constructor (existing: map<string, PublicAccess>)
      ensures containers == existing && log == []
    {
      containers := existing;
      log := [];
    }

    /** `CreateAsync`: a new container starts with no public access. */
    method Create(name: string, fault: Option<StorageError>) returns (o: Outcome<StorageError>)
      modifies this
      ensures o == CreateOutcome(old(containers), name, fault)
      ensures containers == if o.Pass? then old(containers)[name := Off] else old(containers)
      ensures log == old(log) + [CreateRequest(name)]
    {
      o := CreateOutcome(containers, name, fault);
      if o.Pass? {
        containers := containers[name := Off];
      }
      log := log + [CreateRequest(name)];
    }

    /** `SetPermissionsAsync`: overwrites the container's public-access level. */
    method SetPermissions(name: string, access: PublicAccess, fault: Option<StorageError>)
      returns (o: Outcome<StorageError>)
      modifies this
      ensures o == SetPermissionsOutcome(old(containers), name, fault)
      ensures containers == if o.Pass? then old(containers)[name := access] else old(containers)
      ensures log == old(log) + [PermissionsRequest(name, access)]
    {
      o := SetPermissionsOutcome(containers, name, fault);
      if o.Pass? {
        containers := containers[name := access];
      }
      log := log + [PermissionsRequest(name, access)];
    }
  }

  /** `GetContainerAsync`: create the container; only if that succeeds, set its access level to
      `Blob`; return the reference only if both succeed. An exception from either call
      propagates, and a failed create leaves the service's containers as they were. */
  method GetContainer(service: StorageService, name: string,
                      createFault: Option<StorageError>, permissionFault: Option<StorageError>)
    returns (r: Result<ContainerRef, StorageError>)
    modifies service
    ensures var created := CreateOutcome(old(service.containers), name, createFault);
      && (created.Fail? ==>
            && r == Failure(created.error)
            && service.containers == old(service.containers)
            && service.log == old(service.log) + [CreateRequest(name)])
      && (created.Pass? ==>
            && service.log == old(service.log) + [CreateRequest(name), PermissionsRequest(name, Blob)]
            && (permissionFault.None? ==>
                  r == Success(ContainerRef(name)) &&
                  service.containers == old(service.containers)[name := Blob])
            && (permissionFault.Some? ==>
                  r == Failure(permissionFault.value) &&
                  service.containers == old(service.containers)[name := Off]))
  {
    var container := ContainerRef(name);
    var created := service.Create(container.name, createFault);
    if created.Fail? {
      return Failure(created.error);
    }
    var permitted := service.SetPermissions(container.name, Blob, permissionFault);
    if permitted.Fail? {
      return Failure(permitted.error);
    }
    r := Success(container);
  }

  /** Provisioning an existing container fails with a conflict and sends no permission request,
      so the container keeps whatever access level it had: a second `GetContainer` for the same
      name does not succeed. */
  method ProvisionTwice(service: StorageService, name: string)
    returns (first: Result<ContainerRef, StorageError>, second: Result<ContainerRef, StorageError>)
    requires name !in service.containers
    modifies service
    ensures first == Success(ContainerRef(name))
    ensures second == Failure(ContainerAlreadyExists)
    ensures service.containers == old(service.containers)[name := Blob]
    ensures service.log == old(service.log)
      + [CreateRequest(name), PermissionsRequest(name, Blob), CreateRequest(name)]
  {
    first := GetContainer(service, name, None, None);
    second := GetContainer(service, name, None, None);
  }
}
