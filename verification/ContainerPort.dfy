/** The container runtime as its callers see it: it may answer anything, and every call is recorded. */
module ContainerPort {
  import opened Basics

  datatype ContainerError =
    | CommandFailed(stderr: string)
    | Conflict
    | ImageNotFound
    | OrphansFound(containers: seq<ContainerInfo>)
    | StartupFailed
    | Other

  /** A line of `list_managed_containers`. */
  datatype ContainerInfo = ContainerInfo(name: string, running: bool)

  datatype Scope = Scope(installation: string, role: string)

  type Answer<T> = Result<T, ContainerError>

  datatype Unit = Unit

  datatype Effect =
    | ImageExists(image: string, found: Answer<bool>)
    | PullImage(image: string, done: Answer<Unit>)
    | Exists(name: string, found: Answer<bool>)
    | IsRunning(name: string, found: Answer<bool>)
    | ListManaged(scope: Scope, listed: Answer<seq<ContainerInfo>>)
    | ValidateNetwork(done: Answer<Unit>)
    | EnsureNetwork(network: string, isolated: bool, done: Answer<Unit>)
    | RunContainer(name: string, id: Answer<string>)
    | GetIp(name: string, ip: Answer<Option<string>>)
    | LogsTail(name: string)
    | Stop(name: string, done: Answer<Unit>)
    | Remove(name: string, done: Answer<Unit>)
    | Probe(host: string, port: nat, open: bool)
    | Sleep(duration: nat)

  /** Time is in milliseconds; any call may take some, and a sleep takes at least what it was asked. */
  class Port {
    ghost var trace: seq<Effect>
    var now: nat

    constructor ()
      ensures trace == []
    {
      trace := [];
    }

    method PassTime(atLeast: nat)
      modifies this`now
      ensures now >= old(now) + atLeast
    {
      var more :| more >= 0;
      now := now + atLeast + more;
    }

    method ImageExists(image: string) returns (r: Answer<bool>)
      modifies this
      ensures trace == old(trace) + [Effect.ImageExists(image, r)] && now >= old(now)
    {
      r := *;
      trace := trace + [Effect.ImageExists(image, r)];
      PassTime(0);
    }

    method PullImage(image: string) returns (r: Answer<Unit>)
      modifies this
      ensures trace == old(trace) + [Effect.PullImage(image, r)] && now >= old(now)
    {
      r := *;
      trace := trace + [Effect.PullImage(image, r)];
      PassTime(0);
    }

    method Exists(name: string) returns (r: Answer<bool>)
      modifies this
      ensures trace == old(trace) + [Effect.Exists(name, r)] && now >= old(now)
    {
      r := *;
      trace := trace + [Effect.Exists(name, r)];
      PassTime(0);
    }

    method IsRunning(name: string) returns (r: Answer<bool>)
      modifies this
      ensures trace == old(trace) + [Effect.IsRunning(name, r)] && now >= old(now)
    {
      r := *;
      trace := trace + [Effect.IsRunning(name, r)];
      PassTime(0);
    }

    method ListManaged(scope: Scope) returns (r: Answer<seq<ContainerInfo>>)
      modifies this
      ensures trace == old(trace) + [Effect.ListManaged(scope, r)] && now >= old(now)
    {
      r := *;
      trace := trace + [Effect.ListManaged(scope, r)];
      PassTime(0);
    }

    method ValidateNetwork() returns (r: Answer<Unit>)
      modifies this
      ensures trace == old(trace) + [Effect.ValidateNetwork(r)] && now >= old(now)
    {
      r := *;
      trace := trace + [Effect.ValidateNetwork(r)];
      PassTime(0);
    }

    method EnsureNetwork(network: string, isolated: bool) returns (r: Answer<Unit>)
      modifies this
      ensures trace == old(trace) + [Effect.EnsureNetwork(network, isolated, r)] && now >= old(now)
    {
      r := *;
      trace := trace + [Effect.EnsureNetwork(network, isolated, r)];
      PassTime(0);
    }

    method RunContainer(name: string) returns (r: Answer<string>)
      modifies this
      ensures trace == old(trace) + [Effect.RunContainer(name, r)] && now >= old(now)
    {
      r := *;
      trace := trace + [Effect.RunContainer(name, r)];
      PassTime(0);
    }

    method GetIp(name: string) returns (r: Answer<Option<string>>)
      modifies this
      ensures trace == old(trace) + [Effect.GetIp(name, r)] && now >= old(now)
    {
      r := *;
      trace := trace + [Effect.GetIp(name, r)];
      PassTime(0);
    }

    method LogsTail(name: string)
      modifies this
      ensures trace == old(trace) + [Effect.LogsTail(name)] && now >= old(now)
    {
      trace := trace + [Effect.LogsTail(name)];
      PassTime(0);
    }

    method Stop(name: string) returns (r: Answer<Unit>)
      modifies this
      ensures trace == old(trace) + [Effect.Stop(name, r)] && now >= old(now)
    {
      r := *;
      trace := trace + [Effect.Stop(name, r)];
      PassTime(0);
    }

    method Remove(name: string) returns (r: Answer<Unit>)
      modifies this
      ensures trace == old(trace) + [Effect.Remove(name, r)] && now >= old(now)
    {
      r := *;
      trace := trace + [Effect.Remove(name, r)];
      PassTime(0);
    }

    /** One TCP connection attempt. */
    method Probe(host: string, port: nat) returns (open: bool)
      modifies this
      ensures trace == old(trace) + [Effect.Probe(host, port, open)] && now >= old(now)
    {
      open := *;
      trace := trace + [Effect.Probe(host, port, open)];
      PassTime(0);
    }

    method Sleep(duration: nat)
      modifies this
      ensures trace == old(trace) + [Effect.Sleep(duration)] && now >= old(now) + duration
    {
      trace := trace + [Effect.Sleep(duration)];
      PassTime(duration);
    }
  }
}
