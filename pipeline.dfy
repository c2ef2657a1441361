/** The resolution pipeline (`GetContainerInfoKube`): from pod, namespace and container
    name to the container's candidate PIDs, environment and display name. The runtime
    service and the PID locator are inputs; the method returns, besides its result, the
    trace of the remote calls it made, in order. */
module Pipeline {
  import opened Errors
  import opened Cri
  import opened Namespace
  import opened Environment

  /** The debug target, as decoded from a debug attachment. */
  datatype KubeAttachment = KubeAttachment(pod: string, namespace: string, container: string)

  /** What is needed to attach a debugger to the container. */
  datatype ContainerInfo = ContainerInfo(pids: seq<int>, name: string, env: map<string, string>)

  /** FindPidsInNS: the host PIDs in the namespace of a kind with a given inode. */
  type PidLocator = (uint64, string) -> Result<seq<int>>

  /** The namespace kind probed: the mount namespace is never shared with the host. */
  const NsToCheck: string := "mnt"

  /** The ListPodSandbox filter: exactly the pod name and namespace labels, and state ready. */
  function SandboxFilterFor(ka: KubeAttachment): (f: PodSandboxFilter)
    ensures f.labelSelector.Keys == {PodNameLabel, PodNamespaceLabel} && |f.labelSelector| == 2
    ensures f.labelSelector[PodNameLabel] == ka.pod && f.labelSelector[PodNamespaceLabel] == ka.namespace
    ensures f.state == SandboxReady
  {
    PodSandboxFilter(map[PodNameLabel := ka.pod, PodNamespaceLabel := ka.namespace], SandboxReady)
  }

  /** The ListContainers filter: the chosen sandbox and exactly the container name label. */
  function ContainerFilterFor(sandboxId: string, ka: KubeAttachment): (f: ContainerFilter)
    ensures f.podSandboxId == sandboxId
    ensures f.labelSelector.Keys == {ContainerNameLabel} && f.labelSelector[ContainerNameLabel] == ka.container
  {
    ContainerFilter(sandboxId, map[ContainerNameLabel := ka.container])
  }

  /** The running containers of `cs`, in their order in `cs`. */
  function RunningOnly(cs: seq<Container>): (r: seq<Container>)
    ensures |r| <= |cs|
    ensures forall k :: 0 <= k < |r| ==> r[k].state == ContainerRunning && r[k] in cs
    ensures forall c :: c in cs && c.state == ContainerRunning ==> c in r
    decreases |cs|
  {
    if cs == [] then []
    else
      var init, last := cs[..|cs| - 1], cs[|cs| - 1];
      assert forall c :: c in cs ==> c in init || c == last;
      RunningOnly(init) + (if last.state == ContainerRunning then [last] else [])
  }

  /** Filtering keeps the order: filtering a concatenation concatenates the filtered parts. */
  lemma {:induction false} RunningOnlyAppend(a: seq<Container>, b: seq<Container>)
    ensures RunningOnly(a + b) == RunningOnly(a) + RunningOnly(b)
    decreases |b|
  {
    if b != [] {
      var b' := b[..|b| - 1];
      assert (a + b)[..|a + b| - 1] == a + b';
      assert (a + b)[|a + b| - 1] == b[|b| - 1];
      RunningOnlyAppend(a, b');
    } else {
      assert a + b == a;
    }
  }

  /** Filtering keeps every running entry as often as it occurs, and nothing else. */
  lemma {:induction false} RunningOnlyCount(cs: seq<Container>, c: Container)
    ensures multiset(RunningOnly(cs))[c] == if c.state == ContainerRunning then multiset(cs)[c] else 0
    decreases |cs|
  {
    if cs != [] {
      var init := cs[..|cs| - 1];
      assert cs == init + [cs[|cs| - 1]];
      RunningOnlyCount(init, c);
    }
  }

  /** The sandbox list for the request. */
  ghost function Sandboxes(ka: KubeAttachment, rt: RuntimeService): Result<seq<PodSandbox>>
  {
    rt.listPodSandbox(SandboxFilterFor(ka))
  }

  /** Exactly one ready sandbox was listed. */
  ghost predicate OnePod(ka: KubeAttachment, rt: RuntimeService)
  {
    Sandboxes(ka, rt).Ok? && |Sandboxes(ka, rt).value| == 1
  }

  /** The container list within the one sandbox. */
  ghost function Candidates(ka: KubeAttachment, rt: RuntimeService): Result<seq<Container>>
    requires OnePod(ka, rt)
  {
    rt.listContainers(ContainerFilterFor(Sandboxes(ka, rt).value[0].id, ka))
  }

  /** Exactly one of the listed containers is running. */
  ghost predicate OneRunning(ka: KubeAttachment, rt: RuntimeService)
  {
    OnePod(ka, rt) && Candidates(ka, rt).Ok? && |RunningOnly(Candidates(ka, rt).value)| == 1
  }

  ghost function ContainerId(ka: KubeAttachment, rt: RuntimeService): string
    requires OneRunning(ka, rt)
  {
    RunningOnly(Candidates(ka, rt).value)[0].id
  }

  /** What the stages after the choice of container `cid` do: they run the namespace
      exec, then the PID lookup for the parsed inode and "mnt", then the environment
      exec, in that order and all in container `cid` (`calls`), stop at the first error
      and return it unchanged, and otherwise assemble the result (`r`). */
  ghost predicate Inspected(ka: KubeAttachment, rt: RuntimeService, findPids: PidLocator, cid: string,
                            r: Outcome<ContainerInfo>, calls: seq<Call>)
  {
    var ns := GetNS(rt, NsToCheck, cid);
    |calls| >= 1 && calls[0] == ExecSyncCall(cid, NsCommand) &&
    (ns.err.Some? ==> r == Failure(ns.err.value) && |calls| == 1) &&
    (ns.err.None? ==>
       var pids := findPids(ns.inode, NsToCheck);
       |calls| >= 2 && calls[1] == FindPidsCall(ns.inode as int, NsToCheck) &&
       (pids.Err? ==> r == Failure(pids.error) && |calls| == 2) &&
       (pids.Ok? ==>
          var out := rt.execSync(cid, EnvCommand);
          |calls| == 3 && calls[2] == ExecSyncCall(cid, EnvCommand) &&
          (out.Err? ==> r == Failure(out.error)) &&
          (out.Ok? ==>
             var stored := StoreLines(ScanLines(out.value));
             r == if stored.None? then Panicked
                  else Success(ContainerInfo(pids.value, ka.pod + "." + ka.namespace, stored.value)))))
  }

  /** The client-side filter of GetContainerInfoKube: keep the running containers. */
  method FilterRunning(respcont: seq<Container>) returns (containers: seq<Container>)
    ensures containers == RunningOnly(respcont)
  {
    containers := [];
    var i := 0;
    while i < |respcont|
      invariant 0 <= i <= |respcont|
      invariant containers == RunningOnly(respcont[..i])
    {
      var cont := respcont[i];
      assert respcont[..i + 1][..i] == respcont[..i];
      if cont.state == ContainerRunning {
        containers := containers + [cont];
      }
      i := i + 1;
    }
    assert respcont[..i] == respcont;
  }

  /** GetContainerInfoKube. Stages run strictly in order (sandbox list, container list,
      namespace exec, PID lookup, environment exec); the first failing stage ends the
      run with its own error, and no later call is made. */
  method GetContainerInfoKube(ka: KubeAttachment, rt: RuntimeService, findPids: PidLocator)
    returns (r: Outcome<ContainerInfo>, calls: seq<Call>)
    // the sandbox stage
    ensures |calls| >= 1 && calls[0] == ListPodSandboxCall(SandboxFilterFor(ka))
    ensures Sandboxes(ka, rt).Err? ==> r == Failure(Sandboxes(ka, rt).error) && |calls| == 1
    ensures Sandboxes(ka, rt).Ok? && |Sandboxes(ka, rt).value| != 1 ==>
      r == Failure(InvalidNumberOfPods) && |calls| == 1
    // the container stage
    ensures OnePod(ka, rt) ==>
      |calls| >= 2 && calls[1] == ListContainersCall(ContainerFilterFor(Sandboxes(ka, rt).value[0].id, ka))
    ensures OnePod(ka, rt) && Candidates(ka, rt).Err? ==> r == Failure(Candidates(ka, rt).error) && |calls| == 2
    ensures OnePod(ka, rt) && Candidates(ka, rt).Ok? && |RunningOnly(Candidates(ka, rt).value)| != 1 ==>
      r == Failure(InvalidNumberOfContainers) && |calls| == 2
    // the namespace, PID and environment stages, in the one running container
    ensures OneRunning(ka, rt) ==>
      |calls| >= 3 && Inspected(ka, rt, findPids, ContainerId(ka, rt), r, calls[2..])
    // a result is only produced after all five calls
    ensures r.Success? ==> OneRunning(ka, rt) && |calls| == 5
  {
    calls := [];
    var labels: map<string, string> := map[];
    labels := labels[PodNameLabel := ka.pod];
    labels := labels[PodNamespaceLabel := ka.namespace];
    var inpod := PodSandboxFilter(labels, SandboxReady);
    assert inpod == SandboxFilterFor(ka);

    calls := calls + [ListPodSandboxCall(inpod)];
    var resp := rt.listPodSandbox(inpod);
    if resp.Err? {
      return Failure(resp.error), calls;
    }
    if |resp.value| != 1 {
      return Failure(InvalidNumberOfPods), calls;
    }
    var pod := resp.value[0];

    labels := map[];
    labels := labels[ContainerNameLabel := ka.container];
    var incont := ContainerFilter(pod.id, labels);
    assert incont == ContainerFilterFor(pod.id, ka);

    calls := calls + [ListContainersCall(incont)];
    var respcont := rt.listContainers(incont);
    if respcont.Err? {
      return Failure(respcont.error), calls;
    }

    var containers := FilterRunning(respcont.value);

    if |containers| != 1 {
      return Failure(InvalidNumberOfContainers), calls;
    }
    var containerId := containers[0].id;

    assert Sandboxes(ka, rt) == resp && Candidates(ka, rt) == respcont;
    assert OneRunning(ka, rt) && ContainerId(ka, rt) == containerId;
    var inspection, tail := InspectContainer(ka, rt, findPids, containerId);
    assert (calls + tail)[2..] == tail;
    return inspection, calls + tail;
  }

  /** The stages of GetContainerInfoKube once the container is chosen: the mount
      namespace inode, then the PIDs in that namespace, then the environment; each
      stage's error ends the run. */
  method InspectContainer(ka: KubeAttachment, rt: RuntimeService, findPids: PidLocator, containerId: string)
    returns (r: Outcome<ContainerInfo>, calls: seq<Call>)
    ensures Inspected(ka, rt, findPids, containerId, r, calls)
    ensures r.Success? ==> |calls| == 3
  {
    calls := [ExecSyncCall(containerId, NsCommand)];
    var nsinod := GetNS(rt, NsToCheck, containerId);
    if nsinod.err.Some? {
      return Failure(nsinod.err.value), calls;
    }

    calls := calls + [FindPidsCall(nsinod.inode as int, NsToCheck)];
    var potentialpids := findPids(nsinod.inode, NsToCheck);
    if potentialpids.Err? {
      return Failure(potentialpids.error), calls;
    }

    calls := calls + [ExecSyncCall(containerId, EnvCommand)];
    var envVariables := GetEnv(rt, containerId);
    if envVariables.SlicePanic? {
      return Panicked, calls;
    }
    if envVariables.err.Some? {
      return Failure(envVariables.err.value), calls;
    }
    return Success(ContainerInfo(potentialpids.value, ka.pod + "." + ka.namespace, envVariables.vars)), calls;
  }

  /** GetContainerInfo: decode the attachment, mapping any decoding error to
      "bad attachment format", then run the pipeline. */
  method GetContainerInfo<A>(attachment: A, toKube: A -> Result<KubeAttachment>, rt: RuntimeService,
                             findPids: PidLocator)
    returns (r: Outcome<ContainerInfo>, calls: seq<Call>)
    ensures toKube(attachment).Err? ==> r == Failure(BadAttachmentFormat) && calls == []
    ensures toKube(attachment).Ok? ==>
      var ka := toKube(attachment).value;
      |calls| >= 1 && calls[0] == ListPodSandboxCall(SandboxFilterFor(ka)) &&
      (r.Success? ==> r.value.name == ka.pod + "." + ka.namespace && |calls| == 5)
  {
    var ka := toKube(attachment);
    if ka.Err? {
      return Failure(BadAttachmentFormat), [];
    }
    r, calls := GetContainerInfoKube(ka.value, rt, findPids);
  }
}
