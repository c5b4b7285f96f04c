// One run of konlet: pull the image, delete the old containers, unmount what is left of
// earlier runs, prepare the volumes, create the container and start it.
module RunProtocol {
  import opened Wrappers
  import opened ApiTypes
  import opened Host
  import opened VolumeProtocol
  import opened Containers
  import Volumes

  function BindString(b: Binding): string {
    b.hostPath + ":" + b.containerPath + if b.readOnly then ":ro" else ""
  }

  function BindStrings(bindings: seq<Binding>): seq<string> {
    seq(|bindings|, i requires 0 <= i < |bindings| => BindString(bindings[i]))
  }

  function RestartPolicyName(policy: Option<string>): Result<string, Error> {
    if policy == None || policy == Some("Always") then Ok("always")
    else if policy == Some("OnFailure") then Ok("on-failure")
    else if policy == Some("Never") then Ok("no")
    else Err(UnsupportedRestartPolicy(policy.value))
  }

  function Issue(o: Oracle, h: History, c: Command): Step<string> {
    Step(After(o, h, c),
         match o.run(h, c)
         case Err(detail) => Err(CommandFailed(detail))
         case Ok(output) => Ok(output))
  }

  // The configuration of the new container, from the bindings of the preparation.
  function Configure(spec: ContainerSpec, suffix: string, bindings: Bindings): Result<ContainerConfig, Error>
    requires |spec.containers| == 1
  {
    var c := spec.containers[0];
    if c.name !in bindings then Err(BindingMissing(c.name))
    else match RestartPolicyName(spec.restartPolicy)
      case Err(e) => Err(e)
      case Ok(policy) =>
        Ok(ContainerConfig(GeneratedName(c.name, suffix), c.image, BindStrings(bindings[c.name]), policy))
  }

  // The first half of a run: pull the image and delete the old containers.
  function ReplaceOld(a: Agent, h: History, auth: string, c: Container): Step<()> {
    var (h1, _) :- Issue(a.oracle, h, ImagePull(c.image, auth));
    DeleteOld(a.oracle, h1, c.name)
  }

  // Cleanup, whose failure is only logged, and preparation.
  function CleanAndPrepare(a: Agent, h: History, spec: ContainerSpec): Step<Bindings> {
    PrepareVolumes(a, UnmountExisting(a, h).history, spec)
  }

  // Everything up to the point where the container can be created: the history and the
  // configuration to create it with.
  function PrepareContainer(a: Agent, h: History, auth: string, spec: ContainerSpec, suffix: string)
    : Step<ContainerConfig>
  {
    if |spec.containers| != 1 then Step(h, Err(NotOneContainer))
    else
      var (h1, _) :- ReplaceOld(a, h, auth, spec.containers[0]);
      var (h2, bindings) :- CleanAndPrepare(a, h1, spec);
      Step(h2, Configure(spec, suffix, bindings))
  }

  // Create and start.
  function Launch(a: Agent, h: History, config: ContainerConfig): Step<string> {
    var (h1, id) :- Issue(a.oracle, h, ContainerCreate(config));
    var (h2, _) :- Issue(a.oracle, h1, ContainerStart(id));
    Step(h2, Ok(id))
  }

  // The outcome of a successful run is the id of the container.
  function RunContainer(a: Agent, h: History, auth: string, spec: ContainerSpec, suffix: string): Step<string> {
    var (h1, config) :- PrepareContainer(a, h, auth, spec, suffix);
    Launch(a, h1, config)
  }

  class ContainerRunner {
    const client: Session
    const volumesEnv: Volumes.Env
    const randEnv: Rand

    constructor (volumesEnv: Volumes.Env, randEnv: Rand)
      ensures client == volumesEnv.host && this.volumesEnv == volumesEnv && this.randEnv == randEnv
    {
      client, this.volumesEnv, this.randEnv := volumesEnv.host, volumesEnv, randEnv;
    }

    // The loop that turns bindings into Docker's strings.
    method HostPathBinds(configuration: seq<Binding>) returns (hostPathBinds: seq<string>)
      ensures hostPathBinds == BindStrings(configuration)
    {
      hostPathBinds := [];
      for i := 0 to |configuration|
        invariant hostPathBinds == BindStrings(configuration[..i])
      {
        var bind := configuration[i].hostPath + ":" + configuration[i].containerPath;
        if configuration[i].readOnly {
          bind := bind + ":ro";
        }
        assert bind == BindString(configuration[i]);
        hostPathBinds := hostPathBinds + [bind];
      }
      assert configuration[..|configuration|] == configuration;
    }

    method CreateContainer(auth: string, spec: ContainerSpec) returns (r: Result<string, Error>)
      requires client == volumesEnv.host && WalksMaps(client.oracle)
      modifies client, randEnv
      ensures var suffix := Suffix(randEnv.draws, old(randEnv.drawn), 4);
        var p := PrepareContainer(volumesEnv.Agent(), old(client.history), auth, spec, suffix);
        match p.outcome
        case Err(e) => Step(client.history, r) == Step(p.history, Err(e))
        case Ok(config) => Step(client.history, r) == Issue(client.oracle, p.history, ContainerCreate(config))
    {
      if |spec.containers| != 1 {
        return Err(NotOneContainer);
      }
      var c := spec.containers[0];
      var suffix := GenerateRandomSuffix(4, randEnv);
      var name := "klt-" + c.name + "-" + suffix;
      var pulled := client.Run(ImagePull(c.image, auth));
      if pulled.Err? {
        return Err(CommandFailed(pulled.error));
      }
      var deleted := DeleteOldContainers(client, c.name);
      if deleted.Err? {
        return Err(deleted.error);
      }
      var _ := volumesEnv.UnmountExistingVolumes();
      var bindings := volumesEnv.PrepareVolumesAndGetBindings(spec);
      if bindings.Err? {
        return Err(bindings.error);
      }
      if c.name !in bindings.value {
        return Err(BindingMissing(c.name));
      }
      var configuration := bindings.value[c.name];
      var hostPathBinds := HostPathBinds(configuration);
      var policy := RestartPolicyName(spec.restartPolicy);
      if policy.Err? {
        return Err(policy.error);
      }
      var created := client.Run(ContainerCreate(ContainerConfig(name, c.image, hostPathBinds, policy.value)));
      if created.Err? {
        return Err(CommandFailed(created.error));
      }
      return Ok(created.value);
    }

    method Run(auth: string, spec: ContainerSpec) returns (r: Result<(), Error>)
      requires client == volumesEnv.host && WalksMaps(client.oracle)
      modifies client, randEnv
      ensures var s := RunContainer(volumesEnv.Agent(), old(client.history), auth, spec,
                                    Suffix(randEnv.draws, old(randEnv.drawn), 4));
        client.history == s.history && r == if s.outcome.Err? then Err(s.outcome.error) else Ok(())
    {
      var id := CreateContainer(auth, spec);
      if id.Err? {
        return Err(id.error);
      }
      var started := client.Run(ContainerStart(id.value));
      if started.Err? {
        return Err(CommandFailed(started.error));
      }
      return Ok(());
    }
  }
}
