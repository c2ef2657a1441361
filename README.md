# CRI container resolution in squash, modelled in Dafny

squash is a debugger for microservices. To attach a debugger to a container in a
Kubernetes pod, its node-side client must turn the debug target (pod name, pod
namespace, container name) into three things: the host PIDs that run inside the
container, the container's environment, and a display name. It gets them from the
node's container runtime through the CRI (container runtime interface, v1alpha2) in
five steps:

1. list the ready pod sandboxes labelled with the pod's name and namespace, and
   require exactly one;
2. list that sandbox's containers labelled with the container name, keep the
   running ones, and require exactly one;
3. run `ls -l /proc/self/ns/` in the container and read the mount namespace inode
   from the first `mnt:[<digits>]` in the output (`getNS`);
4. ask the PID locator (`FindPidsInNS`) for the host PIDs in that namespace;
5. run `printenv` in the container and turn its lines into a map (`getEnv`).

The first failure ends the run and its error is returned.

The project models exactly this, in four modules:

- `Errors` (errors.dfy): the client's errors and their Go messages, plus `Option`,
  `Result` and `Outcome`. `Outcome` adds `Panicked` for a Go run-time panic.
- `Cri` (cri.dfy): sandbox and container descriptors, the two list filters, the label
  keys, and the runtime service. The service is a value of three total functions,
  one per remote call: `ListPodSandbox`, `ListContainers` and `ExecSync`, where
  `ExecSync` gives the command's standard output. It also has the `Call` records of
  a call trace.
- `Namespace` (namespace.dfy): `getNS`. It models the leftmost match of
  `<ns>:\[(\d+)\]` (the digit group is greedy), and `strconv.ParseInt` in base 10
  for 64-bit `int`, including its overflow result.
- `Environment` (environment.dfy): `getEnv`. It models `bufio.ScanLines` tokenising,
  `strings.IndexByte`, and the key/value slicing exactly as written, followed by a
  loop over the lines into a map.
- `Pipeline` (pipeline.dfy): `GetContainerInfoKube` and `GetContainerInfo`.
  Besides its result, `GetContainerInfoKube` returns the trace of the remote calls it
  made. This lets its contract state the order of the calls, their exact arguments,
  and that no call follows a failure.

The runtime service, the PID locator and the attachment decoder are parameters. Go
strings and byte slices are Dafny strings with one element per byte.

## Model

| member | source | states |
|---|---|---|
| Pipeline.GetContainerInfoKube | pkg/platforms/kubernetes/client_alphav2_linux.go:64-153 | The first call is ListPodSandbox with the sandbox filter. A list error, or a count other than one, fails after that single call: the list error unchanged, or "Invalid number of pods". With one sandbox, the second call is ListContainers with that sandbox's id and the container label. A list error, or a running count other than one, fails after two calls: the list error unchanged, or "Invalid number of containers". With one running container, the remaining calls and the result are those of `Inspected` for that container's id. A success happens only after all five calls |
| Pipeline.InspectContainer | pkg/platforms/kubernetes/client_alphav2_linux.go:129-152 | The calls run in order in the chosen container: the namespace exec, then the PID lookup for the parsed inode and "mnt", then the printenv exec. The first error is returned unchanged and ends the calls. A panicking environment line gives `Panicked`. Otherwise the result holds the locator's PIDs exactly, the name `pod.namespace`, and the stored environment map |
| Pipeline.FilterRunning | pkg/platforms/kubernetes/client_alphav2_linux.go:114-119 | The loop over the listed containers returns exactly `RunningOnly` of the list |
| Pipeline.RunningOnly | pkg/platforms/kubernetes/client_alphav2_linux.go:114-119 | Every kept container is running and was listed. Every listed running container is kept. Nothing is added |
| Pipeline.RunningOnlyAppend | pkg/platforms/kubernetes/client_alphav2_linux.go:114-119 | The filter keeps order: filtering `a + b` gives filter(a) + filter(b) |
| Pipeline.RunningOnlyCount | pkg/platforms/kubernetes/client_alphav2_linux.go:114-119 | Each running container is kept as many times as it is listed; containers in any other state are dropped |
| Pipeline.SandboxFilterFor | pkg/platforms/kubernetes/client_alphav2_linux.go:76-83 | The sandbox filter selects exactly two labels, the pod name and the pod namespace, with the attachment's values, and requires state ready |
| Pipeline.ContainerFilterFor | pkg/platforms/kubernetes/client_alphav2_linux.go:98-103 | The container filter names the chosen sandbox and selects exactly the container-name label |
| Pipeline.GetContainerInfo | pkg/platforms/kubernetes/client_alphav2_linux.go:51-62 | A decoding error gives "bad attachment format" and no remote call. Otherwise the pipeline runs: its first call is the sandbox listing for the decoded target, and a success carries the name `pod.namespace` after five calls |
| Namespace.GetNS | pkg/platforms/kubernetes/client_alphav2_linux.go:155-177 | An exec error is returned with inode 0. Output without a match gives (0, "mnt namespace not found"). When no error is returned, the output has a leftmost match and the inode is that match's decimal value, which is at most the int64 maximum |
| Namespace.GetNSOfLeftmostMatch | pkg/platforms/kubernetes/client_alphav2_linux.go:169-176 | For the leftmost match with digits d: if d's value fits in int64, the result is that value with no error; otherwise the result is the int64 maximum with ParseInt's range error for d |
| Namespace.LeftmostMatch | pkg/platforms/kubernetes/client_alphav2_linux.go:169-173 | A found match is the leftmost one. Nothing is found if and only if no position and no digit string match |
| Namespace.LeftmostMatchUnique | pkg/platforms/kubernetes/client_alphav2_linux.go:169-170 | The leftmost match is unique: any leftmost match is the one found |
| Namespace.MatchAt | pkg/platforms/kubernetes/client_alphav2_linux.go:169-170 | At a fixed position, a digit string d matches if and only if it is the one returned, so the digit group is greedy and determined |
| Namespace.DigitRun | pkg/platforms/kubernetes/client_alphav2_linux.go:169 | `\d+` is greedy: the digit run from a position is all digits and stops at the end of the text or at a non-digit |
| Namespace.LsLineInode | pkg/platforms/kubernetes/client_alphav2_linux.go:164-176 | For output of the form `pre ns:[d] rest`, with no `[` in `pre`, the inode is d's value, or the int64 maximum with the range error |
| Namespace.InodeRoundTrip | pkg/platforms/kubernetes/client_alphav2_linux.go:164-176 | An inode n up to the int64 maximum, printed in decimal in such a line, is read back as exactly n with no error |
| Namespace.InodeOverflow | pkg/platforms/kubernetes/client_alphav2_linux.go:175-176 | An inode above the int64 maximum is read as the int64 maximum, with ParseInt's out-of-range error for its digits |
| Namespace.GetNSNotFound | pkg/platforms/kubernetes/client_alphav2_linux.go:170-173 | Output with no match gives inode 0 with the error text "mnt namespace not found", whatever namespace kind was asked for |
| Namespace.PidNamespaceSample | pkg/platforms/kubernetes/client_alphav2_linux.go:164-176 | The sample `ls` line `... /proc/1/ns/pid -> pid:[4026532605]`, probed for "pid", gives inode 4026532605 and no error |
| Namespace.DecimalRoundTrip | pkg/platforms/kubernetes/client_alphav2_linux.go:175 | Parsing a number printed in base 10 gives that number back |
| Environment.GetEnv | pkg/platforms/kubernetes/client_alphav2_linux.go:179-201 | An exec error gives an empty map and that error. Otherwise the loop over the scanned lines yields the map `StoreLines` describes, with no error, or a slice panic when some line starts with `=` |
| Environment.StoreLinesLookup | pkg/platforms/kubernetes/client_alphav2_linux.go:188-194 | A key is in the map if and only if some line stores it. Its value is the one from the last line that stores it |
| Environment.StoreLinesAppend | pkg/platforms/kubernetes/client_alphav2_linux.go:188-194 | Adding a line: a line without `=` changes nothing; an assignment line overwrites its key; a leading `=` panics |
| Environment.StoreLinesPanics | pkg/platforms/kubernetes/client_alphav2_linux.go:190-193 | The loop panics if and only if some line starts with `=` |
| Environment.LeadingEqualsPanics | pkg/platforms/kubernetes/client_alphav2_linux.go:191-192 | One line starting with `=` anywhere in the output makes the whole loop panic |
| Environment.ParseEnvLine | pkg/platforms/kubernetes/client_alphav2_linux.go:189-193 | A line gives no pair if and only if it has no `=`, and a panic if and only if it starts with `=`. Otherwise the key is the text before the first `=` minus its last character, and the value is everything after that `=` |
| Environment.EnvKeyDropsLastChar | pkg/platforms/kubernetes/client_alphav2_linux.go:192 | For a line `k=v` with no `=` in a non-empty `k`, the key is `k` without its last character and the value is exactly `v` |
| Environment.IndexByte | pkg/platforms/kubernetes/client_alphav2_linux.go:190 | The result is -1 if and only if the byte is absent. Otherwise it is the first index of the byte |
| Environment.ScanLines | pkg/platforms/kubernetes/client_alphav2_linux.go:187-189 | No scanned line contains a newline |
| Environment.ScanJoinRoundTrip | pkg/platforms/kubernetes/client_alphav2_linux.go:187-189 | Scanning newline-terminated lines (none ending in `\r`) gives those lines back |
| Environment.ScanUnterminatedLast | pkg/platforms/kubernetes/client_alphav2_linux.go:187-189 | A final line without a newline is still a line, with one trailing `\r` dropped |
| Environment.PrintenvSample | pkg/platforms/kubernetes/client_alphav2_linux.go:187-194 | For the output `FOO=bar`, `BAZ=qux=1`, `NOEQUALS`, the map is exactly {"FO": "bar", "BA": "qux=1"} |

## Left out

- NewContainerProcess (lines 36-49) is not modelled: it only probes that the runtime service can be reached.
- Connecting to the runtime (lines 71-74) is not modelled: the model receives the runtime service as a value, so the connection error path is absent.
- The runtime service itself: its server-side filtering, timeouts and gRPC transport are not modelled. The model assumes nothing about the lists it returns beyond their type.
- FindPidsInNS and DebugAttachmentToKubeAttachment are function parameters: they live outside the modelled file.
- The context argument is not modelled, and neither is its nil default: no modelled step uses it.
- Logging and the `fmt.Println("v2")` output are left out: they have no effect on results.
- ExecSync's standard error output and its one-second timeout are left out: the client ignores stderr, and the timeout belongs to the runtime.
- Namespace.GetNS: the pattern is compiled from `ns`, and the model treats `ns` as literal text, so it requires `ns` to contain no regular-expression metacharacters. General regular-expression semantics are not modelled. The only caller passes "mnt".
- Environment.GetEnv: the scanner's 64 KiB token limit and its read errors are not modelled, because output read from memory gives no read error. The function's returned error is therefore always nil after a successful exec, which matches the code.
- Pipeline.GetContainerInfo: its contract is weaker than full equality with GetContainerInfoKube's result, because a method cannot be called inside a contract. It states the decoding error, the first call, and the success name.
- Go's `int` is taken to be 64 bits wide. The conversion `uint64(inod)` is exact, because ParseInt never returns a negative value for a digit string.
- Re-running the pipeline gives the same result for the same runtime answers. This holds because every model member is deterministic; no lemma states it.

## Where the code differs from the design description

The model follows the code in each of these cases.

- Environment keys: the design expects the whole text before the first `=`. The code's slice drops the key's last character (`FOO=bar` stores key `FO`), and a line starting with `=` makes the slice's end index -1, which panics. `ParseEnvLine`, `EnvKeyDropsLastChar` and `LeadingEqualsPanics` state the as-written behaviour, and the pipeline returns `Panicked` in the panic case.
- A scanner error after printenv is only logged, and the function still returns a nil error.
- The cardinality errors are fixed strings. They do not report the number of pods or containers found.
- The namespace pattern is matched against the whole `ls` output, not line by line. The first match anywhere wins.
- The inode is parsed as a signed 64-bit integer. A value above the int64 maximum returns that maximum together with the range error. The caller does not use the inode after such an error.
- The environment is read only after the PID lookup succeeds. Any failure earlier in the sequence prevents it.
