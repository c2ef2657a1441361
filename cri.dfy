/** The slice of the CRI (container runtime interface, v1alpha2) that the client uses:
    sandbox and container descriptors, the two list filters, and the runtime service
    itself, abstracted as the values its calls return. */
module Cri {
  import opened Errors

  datatype PodSandboxState = SandboxReady | SandboxNotReady

  datatype ContainerState = ContainerCreated | ContainerRunning | ContainerExited | ContainerUnknown

  datatype PodSandbox = PodSandbox(id: string, state: PodSandboxState)

  datatype Container = Container(id: string, state: ContainerState)

  /** The ListPodSandbox filter: a label selector and a required sandbox state. */
  datatype PodSandboxFilter = PodSandboxFilter(labelSelector: map<string, string>, state: PodSandboxState)

  /** The ListContainers filter: the owning sandbox and a label selector. */
  datatype ContainerFilter = ContainerFilter(podSandboxId: string, labelSelector: map<string, string>)

  const PodNameLabel := "io.kubernetes.pod.name"
  const PodNamespaceLabel := "io.kubernetes.pod.namespace"
  const ContainerNameLabel := "io.kubernetes.container.name"

  /** The runtime service as seen by the client: what each remote call returns for
      given arguments. The filtering done by the server is not visible and is not
      assumed. `execSync` gives the standard output of a command run in a container. */
  datatype RuntimeService = RuntimeService(
    listPodSandbox: PodSandboxFilter -> Result<seq<PodSandbox>>,
    listContainers: ContainerFilter -> Result<seq<Container>>,
    execSync: (string, seq<string>) -> Result<string>)

  /** One remote call made by the client, as recorded in a call trace. */
  datatype Call =
    | ListPodSandboxCall(sandboxFilter: PodSandboxFilter)
    | ListContainersCall(containerFilter: ContainerFilter)
    | ExecSyncCall(containerId: string, cmd: seq<string>)
    | FindPidsCall(inode: int, ns: string)
}
