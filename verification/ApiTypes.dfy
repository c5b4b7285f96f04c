// The decoded container declaration, the decoded disk metadata and the errors konlet reports.
module ApiTypes {
  import opened Wrappers

  datatype VolumeMount = VolumeMount(name: string, mountPath: string, readOnly: bool)

  datatype Container = Container(name: string, image: string, volumeMounts: seq<VolumeMount>)

  datatype GcePersistentDisk = GcePersistentDisk(pdName: string, fsType: string, partition: int)

  // A volume names any subset of the three kinds; konlet insists on exactly one.
  datatype Volume = Volume(
    name: string,
    hostPath: Option<string>,
    emptyDirMedium: Option<string>,
    persistentDisk: Option<GcePersistentDisk>)

  datatype ContainerSpec = ContainerSpec(
    containers: seq<Container>,
    volumes: seq<Volume>,
    restartPolicy: Option<string>)

  // One record of the instance's disk metadata.
  datatype DiskRecord = DiskRecord(deviceName: string, mode: string)

  // What a handler yields for one volume.
  datatype HostPathAndMode = HostPathAndMode(hostPath: string, readOnly: bool)

  datatype Binding = Binding(hostPath: string, containerPath: string, readOnly: bool)

  type Bindings = map<string, seq<Binding>>

  datatype Error =
    | CommandFailed(detail: string)
    | UndeclaredVolume(volume: string, container: string, containerIndex: nat)
    | UnreferencedVolume(volume: string)
    | MetadataUnavailable(detail: string)
    | EmptyDeviceName
    | UnknownDeviceMode(device: string, mode: string)
    | MissingFromDemand(volume: string)
    | DefinitionCount(volume: string, found: nat)
    | InVolume(volume: string, cause: Error)
    | UnsupportedMedium(medium: string)
    | UnsupportedFsType(fsType: string)
    | EmptyDiskName
    | AttachmentUnknown(pdName: string)
    | AttachedReadOnly(pdName: string)
    | DeviceAccess(device: string, detail: string)
    | NotBlockDevice(device: string)
    | MultilineOutput(debugOutput: string)
    | MultilineOutputNoDebug(detail: string)
    | AlreadyMounted(device: string, mountPoint: string)
    | NoChecker(fsType: string)
    | FormatFailed(detail: string)
    | CheckFailed(detail: string)
    | WrongFsType(device: string, actual: string, expected: string)
    | MkdirFailed(path: string, detail: string)
    | MountFailed(device: string, mountPoint: string, detail: string)
    | UnmountFailed(detail: string)
    | ReadOnlyVolume(container: string, volume: string)
    | NotOneContainer
    | BindingMissing(container: string)
    | UnsupportedRestartPolicy(policy: string)
}
