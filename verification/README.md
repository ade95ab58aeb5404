# A transparent service mesh, verified

The mesh redirects a pod's TCP connections to a proxy beside it, carries them through a tunnel to a proxy beside the
target, and is installed by an admission webhook and a certificate watcher. This project models those four parts and
proves what they keep, lose and guarantee.

- **Redirect** (`Words`, `Mirrors`, `History`, `Loader`). `Mirrors.Hooks` holds the kernel's bounded maps in mutable
  fields; its three methods follow the hooks statement by statement and are proved against a two-table specification
  over plain numbers. `History` compares the tables after any run with the history of the run.
- **Tunnel** (`Queues`, `Tunnel`, `Conservation`, `HandshakeProgress`, `CopyProgress`, `Handlers`). The protocol is a step system: two
  handshakes, four concurrent copy loops, arbitrary read and write sizes, a failing connection, asymmetric closing.
  `Handlers` has the handshake code itself over a connection object and the 256-byte buffer, proved to take those steps.
- **Admission** (`JsonPatch`, `Webhook`, `AdmissionProofs`, `AdmissionPolicy`, `AdmissionRuns`). JSON documents, JSON Pointer (RFC 6901)
  and the operations add and replace of JSON Patch (RFC 6902), and what the generated patch does to any pod document.
- **Certificates** (`Watcher`). The event handlers with their shared certificate fields and create-only secrets.
- **Across the parts** (`Text`, `EndToEnd`, `ProxyLoop`). The printed and parsed `addr:port` text, the destination from
  `connect()` to the far proxy's dial, and the chain of connects that one connect sets off.

`dafny verify dfyconfig.toml` checks everything.

## What turned out false, and exactly when it holds

- *Every accepted connection recovers its own destination.* In any run the lookup of a port is the history of the
  connections that found room (`LookupIsTrackedHistory`). A connection recovers its own destination if and only if the
  port leads to a connection whose truncated cookie last went there; unless another connection of the port was going
  to the same place, that means its truncated cookie was admitted, its port had room, no later tracked connection took
  the port, and the latest redirected connect with its truncated cookie went to its destination
  (`RecoversOwnDestination`). Colliding cookies share a destination (`CollidingCookiesShareDestination`), and a full
  `map_socks` stays full (`SaturationIsPermanent`).
- *The tunnel is transparent.* Towards the target it is, if and only if the far proxy's one read returned the whole
  header (`ForwardTransparency`); a shorter read is dialled as it stands (`ShortHeaderReadIsDialled`) and can name
  another port (`TruncatedTargetIsAnotherPort`). Towards the client the near proxy's one read takes the answer and the
  first k <= 255 bytes of the target (`ReverseLoss`), and any such k can happen (`ServerFirstBytesCanBeLost`). Decided
  before any byte is sent: all connections for a printed endpoint are transparent in each direction if and only if
  reads preserve records, as on the TLS path (`OnlyRecordsAreTransparent`; for any header `TransparentUnlessCut`).
- *The patch applies to every pod that needs it.* It applies if and only if metadata and spec are objects, the status
  annotation is absent or empty, and the final replace is permitted (`PatchMeaning`). With any other status value the
  slash in the annotation key, which is not escaped, makes the pointer name a place inside a string
  (`AnnotationPointerNamesKey`).
- *Other annotations are preserved.* The whole annotation map is replaced by the status alone (`InjectedLocations`).
  For any annotations to set, one that no operation names is kept if and only if the pod had all the keys
  (`AnnotationKeptIff`); otherwise only the key visited last remains (`OnlyLastAnnotationRemains`).
- *A secret follows its pod's address.* It keeps the first address since the secret was last removed
  (`SecretsMatchOrigins`, `ChangedAddressKeepsSecret`), and is removed with its pod if and only if the pod is in the
  default namespace and the call is taken (`DeletionClears`, `OtherNamespaceLeavesSecret`).
- *The injected proxy reads its pod's secret.* It does if and only if the admitted document carried the pod's final
  name and the pod is in the default namespace (`ContainerReadsPodSecret`): the reference is looked up in the pod's own
  namespace, where no run of the watcher ever creates a secret unless it is the default one (`NoSecretElsewhere`), and
  a pod named by the API server is admitted without a name.
- *The proxy never proxies itself.* No connect of a recognised proxy is redirected (`OnlyFirstIsRedirected`). But a
  connect to a proxy's own listener makes that proxy connect again: an application connect sets off at most two more
  if and only if neither its own destination nor the one its proxy is told leads to a proxy's listener
  (`NoProxyLoop`). A connection that recovers its own destination is told just that (`RecoveredConnectsEnd`); one with a
  colliding cookie can be told another pod's TLS port (`CollidingCookieReachesListener`), and at an external listener
  chains of any length can follow (`EndlessChain`). Of the cluster ports 18001 is exempt by number and 18443 by the pid
  alone (`ClusterPortReachesProxy`, `TlsPortReachesProxy`, `OnlyThePidExemptsTls`); away from the proxies' ports chains
  end (`OrdinaryPortsEnd`). A proxy with certificates that the hooks do not recognise is
  redirected to itself again and again, for as many turns as the tables have room (`UnrecognisedProxyLoops`).
- *JSON Patch operations on incomparable pointers commute.* They do, whatever they write, if and only if neither is an
  insertion, into the array where the pointers part, that changes which element the other edits (`EditsCommuteIff`).

The repository's README says that the original port is the first data sent through the tunnel and draws the TLS
listener on 18001; the code sends `addr:port` and uses 18443 for TLS. The model follows the code.

## Assumptions

- The host is little-endian. `bpf_map_update_elem` overwrites a present key, inserts while there is room, and otherwise
  fails without effect. The prefix length is 1 to 32, because C leaves the hook's shift by 32 undefined; the hooks'
  contracts therefore start once the configuration entry, all zeros at first, has been written.
- What net.ParseIP makes of IPv6 text is an input of `ToInt` and `LoadConfig`. What the kernel itself answers to
  SO_ORIGINAL_DST, with the bytes it writes, is an input of `FindTargetFromConnection`.
- The namespace pid and the socket cookie are inputs of the hooks.
- After a failed write to the tunnel, or an observed end of it, nothing more gets through in that direction. A failed
  write of the header over TLS delivers none of it. Dialling the empty string fails.
- A TLS read returns data of one record, as much as the buffer holds, and a small write is one record (the size bound
  is that of section 5.1 of RFC 8446). A plain TCP read returns any non-empty prefix of what is there.
- What `replace` does to a missing object member is a parameter: an error (section 4.3 of RFC 6902), or an insertion.
- Informer events are handled one after another. Creating an existing secret fails.
- In `ProxyLoop` what the internal listener is told about a connection belongs to the connect; a redirected connect
  arrives at the listener of its own pod. A connect to 0.0.0.0 or 127.0.0.0/8 stays in its pod, a header is read whole
  (over a stream a shorter one has a shorter port, and names no default listener), and applications may write anything
  to a proxy, in TLS too.

## Model

| member | source | states |
|---|---|---|
| Words.LoadThenSwap | ebpf/mirrors.c:32 | swapping the loaded network-order address gives the number whose most significant octet comes first, for all addresses |
| Words.SwapThenStore | ebpf/mirrors.c:197 | storing the swapped number lays out exactly the octets it was made of |
| Words.StoreThenHostOrder | ebpf/mirrors.c:103-197 | every 32-bit value survives swap, store and reading back in network order |
| Words.SwapTwice | ebpf/mirrors.c:32-33 | the 32-bit swap is its own inverse |
| Words.SwapThenShift | ebpf/mirrors.c:56 | swapping 32 bits and shifting right by 16 reads the 16-bit network-order port, whatever the upper half holds |
| Words.ShiftThenSwap | ebpf/mirrors.c:106 | shifting left by 16 and swapping writes exactly the network-order port field |
| Words.PortFieldReadsBack | ebpf/mirrors.c:56 | the field that carries a port reads back as that port |
| Words.PidTest | ebpf/mirrors.c:80-81 | the signed/unsigned comparison with a real pid is an ordinary equality |
| Words.AndClearsLowBits | ebpf/mirrors.c:35-41 | conjunction with the netmask subtracts the offset within the block |
| Words.MaskTestIsRangeTest | ebpf/mirrors.c:35-43 | the mask test accepts an address iff network is a block's first address and network <= ip < network + 2^(32-mask) |
| Text.QuadRoundTrip | pkg/connection/utils.go:96 | a printed address parses back to its octets |
| Text.QuadTextIsCanonical | pkg/connection/utils.go:42 | the texts read as an IPv4 address are exactly the printed ones |
| Text.TargetRoundTrip | pkg/connection/connection.go:130 | the printed addr:port parses back to the same endpoint and fits in 21 bytes |
| Text.TruncatedTargetIsAnotherPort | pkg/connection/connection.go:213-226 | a header that loses its last digit still parses, to another port of the same host |
| Text.PrefixIsAnotherTarget | pkg/connection/connection.go:213-226 | a proper prefix of a header parses to the header's endpoint iff it lacks just the 0 of port 0 |
| Mirrors.Put | ebpf/mirrors.h:36-48 | a bounded map update: overwrite, insert while there is room, otherwise nothing, never above the bound |
| Mirrors.Hooks.CgConnect4 | ebpf/mirrors.c:18-118 | redirects exactly IPv4 TCP connects into the pod block, not by the proxy and not to an exempt port; then the destination is remembered under the truncated cookie and the address and port name the proxy; otherwise nothing changes |
| Mirrors.Hooks.CgSockOps | ebpf/mirrors.c:125-148 | indexes the cookie by source port iff an active IPv4 connection is established and the truncated cookie is remembered |
| Mirrors.Hooks.CgSockOpt | ebpf/mirrors.c:157-207 | answers iff option, family, protocol, both lookups and the buffer allow it, with the remembered destination as sockaddr bytes in network order; otherwise nothing changes |
| Mirrors.FillSockAddr | ebpf/mirrors.c:195-198 | writes family, port and address as the first eight bytes and leaves the padding |
| Mirrors.RedirectsByNumber | ebpf/mirrors.c:20-91 | the redirected connects in numbers: family 2, protocol 6, inside the block, not the proxy's pid, and not to 8080, 8181, 18000 or 18001 |
| Mirrors.SockAddrByNumber | ebpf/mirrors.c:195-198 | the bytes give back family, port and address as numbers, port and address most significant byte first |
| Mirrors.AnswersByNumber | ebpf/mirrors.c:165-192 | the answered queries in numbers: option 80, family 2, protocol 6, 16 bytes of buffer, and a destination for the source port |
| History.SocksMatchHistory | ebpf/mirrors.c:92-100 | after any run map_socks holds exactly the first 20000 truncated cookies, each with the latest destination of that truncated cookie |
| History.PortsMatchHistory | ebpf/mirrors.c:131-140 | after any run map_ports holds exactly the first 20000 ports of tracked connections, each with the cookie of the latest one |
| History.LookupIsTrackedHistory | ebpf/mirrors.c:177-199 | in any run, collisions and full tables included, port -> cookie -> destination is the history of the connections that found room |
| History.RecoversOwnDestination | ebpf/mirrors.c:150-156 | in any run, a connection recovers its own destination iff the port leads to a connection whose truncated cookie last went there; iff that is itself, unless another one of the port went there |
| History.LookupIsHistory | ebpf/mirrors.c:177-199 | with distinct truncated cookies, one establishment each and at most 20000 keys, the lookup is the destination of the redirected connection last established on the port, or nothing |
| History.CoupledCapacity | ebpf/mirrors.c:136-139 | while no two established connections share a truncated cookie, distinct ports hold distinct keys of map_socks, map_ports never outgrows it, and every tracked connection gets its port |
| History.LiveConnectionRecoversDestination | ebpf/mirrors.c:150-156 | in any run, a tracked connection that holds its port recovers its own destination iff the latest redirect with its truncated cookie went there; so it does while none goes elsewhere |
| History.TablesOnlyGrow | ebpf/mirrors.h:36-48 | the key sets of both maps only grow, and a full map_socks keeps its key set, from any state and in any run |
| History.SaturationIsPermanent | ebpf/mirrors.c:100-140 | once map_socks is full, untracked connections never change where a port leads |
| History.CollidingCookiesShareDestination | ebpf/mirrors.h:39 | two sockets whose cookies agree modulo 2^32 are told the later one's destination |
| History.KeyIsLowHalf | ebpf/mirrors.h:36-41 | the tables tell two cookies apart iff they differ modulo 2^32 |
| History.DistinctCookiesKeepDestinations | ebpf/mirrors.c:92-188 | after any run with room, two sockets whose cookies differ modulo 2^32, opened on two ports, are each told their own destination |
| Loader.ToInt | pkg/connection/utils.go:41-48 | returns the host-order number of a dotted quad, or of the last four bytes of an IPv6 address |
| Loader.LoadConfig | pkg/manager/manager.go:91-115 | writes the configuration entry from the texts, or fails on the prefix length, or panics, and when each happens |
| Loader.TextsLoad | pkg/manager/manager.go:91-108 | the printed address and block are what LoadConfig splits and parses back, for every IPv6 parser |
| Loader.CidrTextMeansRange | pkg/manager/manager.go:91-108 | a printed block splits and parses to its network and prefix length, and the mask test on them accepts exactly its addresses |
| Loader.DecodeInvertsFill | pkg/connection/utils.go:96-97 | decoding the sockaddr bytes gives the octets and port they were filled from |
| Loader.FindTargetFromConnection | pkg/connection/utils.go:50-99 | returns the destination the two tables lead to from the source port; when they lead nowhere the kernel's own result decides, with the bytes it wrote |
| Queues.RecordReadsWhole | pkg/connection/connection.go:256-262 | a record that fits the buffer is read whole |
| Conservation.StepKeepsInv | pkg/connection/connection.go:182-249 | every step of the tunnel keeps conservation in both directions and the phase invariants |
| Conservation.ForwardConservation | pkg/connection/connection.go:182-245 | in every reachable state dialled text ++ delivered bytes ++ bytes on their way is header ++ client bytes, and the dialled text is the front of the header |
| Conservation.ForwardTransparency | pkg/connection/connection.go:213-243 | the target gets exactly the client's bytes iff the first read returned the whole header; otherwise the rest of the header comes first |
| Conservation.ReverseLoss | pkg/connection/connection.go:187-203 | a handshake read of k+1 bytes takes the answer and the target's first k bytes, 0 <= k <= 255, and the client gets the rest in order |
| Conservation.RecordsAreTransparent | pkg/connection/connection.go:252-294 | over records no byte is lost in either direction and the answer is never delivered |
| HandshakeProgress.ShakeDecreasesRank | pkg/connection/connection.go:160-232 | every handshake step decreases a rank |
| HandshakeProgress.HandshakeIsBounded | pkg/connection/connection.go:160-232 | a run takes at most six handshake steps, however copying, failures and applications interleave |
| HandshakeProgress.SettledMeansDone | pkg/connection/connection.go:160-232 | no deadlock: when no handshake step is possible both proxies are past it, or the tunnel never came up, and without a connected target nothing was delivered |
| HandshakeProgress.MaximalHandshake | pkg/connection/connection.go:160-232 | in every run, everything interleaved, at most six handshake steps happen, and it ends connected, or refused with nothing delivered, or undialled; undisturbed, both proxies then splice |
| HandshakeProgress.SuccessfulHandshakeConnects | pkg/connection/connection.go:160-232 | when dials succeed and writes are complete, every maximal handshake ends with both proxies splicing and the answer read, unless the text read is the receiver's own address |
| HandshakeProgress.ShortHeaderReadIsDialled | pkg/connection/connection.go:213-226 | over a stream any non-empty front of the header can be what is dialled |
| HandshakeProgress.ServerFirstBytesCanBeLost | pkg/connection/connection.go:187-203 | over a stream any 1 to 255 first bytes of the target can be swallowed with the answer |
| HandshakeProgress.TransparentUnlessCut | pkg/connection/connection.go:213-226 | every run delivers the client's bytes exactly iff no single read can return a proper front of the header other than the receiver's own address |
| HandshakeProgress.LossIsFinal | pkg/connection/connection.go:187-203 | in every continuation the client only gets target bytes after the swallowed ones |
| CopyProgress.CopyDecreasesRank | pkg/connection/connection.go:197-245 | every read or write of a copy loop lowers a rank |
| CopyProgress.DrainedMeansDelivered | pkg/connection/connection.go:197-245 | when no copy loop can move over a sound tunnel, all sent bytes have been delivered but what the two handshake reads took |
| CopyProgress.CopyDelivers | pkg/connection/connection.go:197-245 | copying alone ends within the rank, however cut and interleaved, and has ended iff everything has been delivered |
| CopyProgress.CopyToEnd | pkg/connection/connection.go:197-245 | from every state copying can be carried on to its end |
| CopyProgress.RecordsDeliverAll | pkg/connection/connection.go:252-294 | over records copying has ended iff each side has got exactly what the other wrote |
| CopyProgress.TunnelEmptiesAfterClient | pkg/connection/connection.go:197-245 | after the client leaves and the near loop ends, copying ends with the target having got all that had entered the tunnel, and the client all that the target wrote |
| CopyProgress.TunnelFillsAfterTarget | pkg/connection/connection.go:197-245 | after the target leaves and the far loop ends, all the client wrote enters the tunnel in order and none of it reaches the target; the client gets all that the target had written |
| CopyProgress.ClosingFromClient | pkg/connection/connection.go:124-207 | after a client leaves its proxy may close, and only then may the far proxy end its loop and close; closing ends the near reverse loop and leaves the far forward loop |
| CopyProgress.ClosingFromTarget | pkg/connection/connection.go:211-248 | after a target leaves the far proxy may close, and only then the near proxy |
| CopyProgress.NothingEntersBrokenTunnel | pkg/connection/connection.go:197-245 | once the tunnel has failed, in no continuation does another byte enter it |
| CopyProgress.CopyingStarts | pkg/connection/connection.go:182-245 | for every header that can be dialled a run reaches the state in which copying starts |
| Handlers.HandleExternalConnection | pkg/connection/connection.go:210-249 | takes the receiver's read, guard, dial and answer steps; splices iff the text read is neither empty nor its own address and the dial succeeds, and closes the connection otherwise; the answer is the one byte Y |
| Handlers.SendDestination | pkg/connection/connection.go:182-185 | takes the sender's header step, partial writes included |
| Handlers.AwaitAnswer | pkg/connection/connection.go:187-190 | takes the sender's read step and goes on to copy whatever it returned |
| JsonPatch.PointerRoundTrip | controller/cmd/webhook.go:119 | sections 3 and 4 of RFC 6901: every location has a pointer that parses back to it |
| JsonPatch.PointerIsCanonical | controller/cmd/webhook.go:119 | sections 3 and 4 of RFC 6901: a text is a pointer to a location iff it is the one written for it |
| JsonPatch.EscapedCharacters | controller/cmd/webhook.go:119 | section 3 of RFC 6901: a slash is written ~1, a tilde ~0, and ~01 stands for ~1 |
| JsonPatch.EditKeepsOthers | controller/cmd/webhook.go:97-101 | an add or replace leaves every location its pointer does not meet unchanged, unless it is an insertion that moves that element |
| JsonPatch.InsertionMovesOthers | controller/cmd/webhook.go:95 | after an insertion before an element its index names what was one place earlier |
| JsonPatch.EditSetsOwn | controller/cmd/webhook.go:97-101 | an edit that applies, other than an insertion into an array, leaves its value at its own location |
| JsonPatch.EditsCommute | controller/cmd/webhook.go:131-137 | edits with incomparable pointers, neither disturbing the other in an array, give the same result in either order, failure included |
| JsonPatch.DisturbedEditsDiffer | controller/cmd/webhook.go:95 | when one disturbs the other, some values tell the two orders apart |
| JsonPatch.EditsCommuteIff | controller/cmd/webhook.go:131-137 | for any document, edits with incomparable pointers commute for all values iff neither disturbs the other |
| JsonPatch.InsertionShiftsElements | controller/cmd/webhook.go:95 | edits that part at an array can give different documents |
| Webhook.MutationRequired | controller/cmd/webhook.go:53-84 | true iff the namespace is not ignored, the status is not injected and the inject annotation is not a refusal, in any letter case |
| Webhook.UpdateAnnotation | controller/cmd/webhook.go:105-125 | for any annotations and visiting order: single replaces before the first key the pod lacks, whole-map adds from it on |
| Webhook.CreatePatch | controller/cmd/webhook.go:128-139 | the patch is the container operation, then the annotation loop's operations, then the process-namespace replace |
| Webhook.Mutate | controller/cmd/webhook.go:142-197 | malformed, allowed, or allowed with the patch, for every document |
| AdmissionPolicy.PatchedIff | controller/cmd/webhook.go:53-84 | by the texts of the document: a patch is answered iff the namespace is neither kube-system nor kube-public, the status is not injected and the inject annotation none of n, not, false, off, in any letter case; the rest is admitted as it is |
| AdmissionPolicy.SilentPodIsPatched | controller/cmd/webhook.go:62-79 | a pod without annotations outside the two namespaces is patched |
| AdmissionPolicy.UnmarshalsIff | controller/cmd/webhook.go:145-152 | which documents unmarshal, location by location, null counting as nothing |
| AdmissionPolicy.OrdinaryPodUnmarshals | controller/cmd/webhook.go:145-196 | a document with a name, a namespace and any containers unmarshals, and is patched outside the two namespaces |
| AdmissionPolicy.PatchAppliesIff | controller/cmd/webhook.go:128-139 | by the document: the answered patch applies iff metadata and spec are objects, the status text is empty, and spec has shareProcessNamespace or replace is lenient |
| AdmissionPolicy.InjectedContainers | controller/cmd/webhook.go:86-103 | the injected list is the document's old list with the proxy for the document's name behind it |
| AdmissionPolicy.ProxyContainer | controller/cmd/sidecars.go:11-17 | the proxy container's name, image, privilege and restart policy |
| AdmissionProofs.PatchPointers | controller/cmd/webhook.go:29-32 | where the pointers of the patch lead; the status pointer has one token too many |
| AdmissionProofs.ContainerStep | controller/cmd/webhook.go:86-103 | the container operation applies iff spec is an object and appends the proxy to the old init containers, none included |
| AdmissionProofs.StatusStep | controller/cmd/webhook.go:105-125 | the annotation operation applies iff metadata is an object and the status is absent or empty, and leaves only the status |
| AdmissionProofs.ShareStep | controller/cmd/webhook.go:135-137 | the replace applies iff spec is an object that has the member or replace is lenient |
| AdmissionProofs.PatchMeaning | controller/cmd/webhook.go:128-139 | for every pod document the patch applies iff CanInject, and then yields exactly the injected document |
| AdmissionProofs.InjectedLocations | controller/cmd/webhook.go:128-139 | the three locations hold old containers ++ proxy, exactly the status, and true; every other location is unchanged |
| AdmissionRuns.AdmissionIsIdempotent | controller/cmd/webhook.go:166-174 | after one applied patch, any number of admissions between edits that keep the marks adds no further container |
| AdmissionRuns.PatchOrderIsIrrelevant | controller/cmd/webhook.go:131-137 | the three operations give the same document or the same failure in all six orders |
| AdmissionRuns.OnlyLastAnnotationRemains | controller/cmd/webhook.go:105-125 | if the pod lacks one of the keys and all operations apply, the final annotations are exactly the last key visited |
| AdmissionRuns.AnnotationKeptIff | controller/cmd/webhook.go:105-125 | when all operations apply, an annotation that none names keeps its value iff the pod had all the keys |
| AdmissionRuns.PresentAnnotationsAreReplaced | controller/cmd/webhook.go:116-122 | if the pod has all the keys and none needs escaping, the operations apply and set exactly those annotations |
| AdmissionRuns.AnnotationPointerNamesKey | controller/cmd/webhook.go:119 | the loop's pointer names the annotation iff the key has neither slash nor tilde |
| Watcher.Handler.constructor | controller/cmd/main.go:69-70 | the watcher starts with the controller's own certificate in the shared fields, whatever secrets exist |
| Watcher.Handler.CreateCertificate | controller/cmd/watcher.go:190-238 | overwrites both shared fields with a new pair |
| Watcher.Handler.LoadSecret | controller/cmd/watcher.go:240-266 | stores the shared fields under the pod's secret name in the default namespace unless it exists or the call fails |
| Watcher.Handler.OnUpdate | controller/cmd/watcher.go:69-83 | issues and stores on a new non-empty address, otherwise nothing |
| Watcher.Handler.OnDelete | controller/cmd/watcher.go:85-95 | removes the secret of the pod's name in the pod's own namespace |
| Watcher.Handler.OnAdd | controller/cmd/watcher.go:97-98 | changes nothing |
| Watcher.SecretsArePaired | controller/cmd/watcher.go:233-245 | in every run, failures and other namespaces included, a stored certificate and key come from one call for a pod of the secret's name, or were there before the run |
| Watcher.OriginMeaning | controller/cmd/watcher.go:74-77 | the origin of a secret is the first update with a new non-empty address that the API took since the secret was last removed |
| Watcher.SecretsMatchOrigins | controller/cmd/watcher.go:69-95 | in every run, from any store, a secret exists iff it has an origin, and holds that update's address and serial, or what it held at the start |
| Watcher.SecretContents | controller/cmd/watcher.go:240-266 | in every run, a created secret holds under ca the CA, under cert a certificate for the pod's name and that update's address, and under key the key of the same call |
| Watcher.SecretsAreLivePods | controller/cmd/watcher.go:69-95 | in the default namespace, with all calls taken and whole lives seen, secrets are exactly those of live pods with an address, issued for that address |
| Watcher.OneLifeHasSecret | controller/cmd/watcher.go:69-95 | a pod of the default namespace has a secret for its address from the address on, and none after its removal |
| Watcher.DeletionClears | controller/cmd/watcher.go:85-95 | a deletion removes the pod's secret iff the call is taken and the pod is in the default namespace |
| Watcher.OtherNamespaceLeavesSecret | controller/cmd/watcher.go:88-259 | in any run, a secret outlives its pod when every later deletion is of another namespace or refused |
| Watcher.ContainerReadsPodSecret | controller/cmd/sidecars.go:7-55 | the container's three variables read the three keys of the secret of the admitted document's name in the pod's namespace, which is the one the watcher stores for the running pod iff the names are equal and the namespace is the default one |
| Watcher.ContainerGetsItsCertificate | controller/cmd/sidecars.go:18-52 | in every run, the injected container finds the CA in SMESH-CA, in SMESH-CERT a certificate for its pod's name and address, and in SMESH-KEY that certificate's key |
| Watcher.NoSecretElsewhere | controller/cmd/watcher.go:240-266 | outside the default namespace no run of the watcher creates the secret the container reads |
| Watcher.ReadSecretHasOrigin | controller/cmd/sidecars.go:9-26 | in the default namespace the secret the container reads exists, in every run, exactly while it has an origin |
| ProxyLoop.OnlyFirstIsRedirected | ebpf/mirrors.c:80-91 | in every chain of connects among recognised proxies only the first can be redirected |
| ProxyLoop.ShortChain | pkg/connection/connection.go:126-226 | a chain that misses the listeners is the application's connect, the near proxy's to the host it is told, and the far proxy's to the destination told |
| ProxyLoop.EndlessChain | pkg/connection/connection.go:213-226 | a connect that ends up at an external listener, by its own destination or the one told, can set off chains of any length |
| ProxyLoop.NoProxyLoop | pkg/connection/connection.go:126-226 | an application connect sets off at most two more iff neither its destination nor the one its proxy is told leads to a listener; none of them is redirected, and the last goes to the destination told |
| ProxyLoop.RecoveredConnectsEnd | pkg/connection/connection.go:126-151 | in any run of the hooks, a connection that recovers its destination is told it, and ends after three connects, the last to that destination, iff it is no listener the two proxies can meet at |
| ProxyLoop.ToldWasRedirected | ebpf/mirrors.c:177-199 | in any run the tables only tell of destinations that a redirected connect wanted, in the block and not exempt |
| ProxyLoop.CollidingCookieReachesListener | ebpf/mirrors.h:39 | with a second socket of the same truncated cookie, a connect to any destination can be told another pod's TLS port and set off chains of any length |
| ProxyLoop.UnrecognisedProxyLoops | pkg/connection/connection.go:151-161 | with certificates and an unrecognised pid the proxy's connect sets off the same again while it is told of it, which from empty tables lasts exactly 20000 turns of fresh cookies and ports |
| EndToEnd.RedirectAndRecover | ebpf/mirrors.c:92-106 | for every address and port, the connect, establish and getsockopt hooks and the decoding give back what was passed to connect() |
| EndToEnd.ConfiguredConnect | pkg/manager/manager.go:91-110 | from the configured texts to the hook: the configuration loads, and a connect leaves for the proxy's address and port and is remembered iff it is IPv4 and TCP, not the proxy's, not to an exempt port, and into the block the text names; otherwise it is left as it was |
| EndToEnd.Deliver | ebpf/mirrors.c:13-148 | whatever event is delivered, the hook that handles it takes one step of a run |
| EndToEnd.DestinationIsPreserved | pkg/connection/connection.go:123-226 | in any run, a tracked connection that holds its port is recovered with the endpoint asked for iff no redirect with its truncated cookie went elsewhere last; the far proxy then dials it iff its read returned the whole header, or all but the 0 of port 0; record reads return the whole |
| EndToEnd.OnlyRecordsAreTransparent | pkg/connection/connection.go:187-226 | for every printed endpoint, all connections reach it, and no target byte is taken with the answer, iff reads preserve records |
| EndToEnd.DestinationIsReached | ebpf/mirrors.c:92-106 | for every redirected destination the very first connection meets those hypotheses and can bring the far proxy to dial it |

## Left out

- Kernel structures behind the namespace pid, the trace output, and the maps' per-entry timing.
- Prefix length 0 and big-endian hosts: undefined or unsupported by the hook's arithmetic.
- Certificate generation, PEM, X.509 and the TLS handshake: a certificate is a token with name, address and serial.
- The Kubernetes client, the HTTP server, flags, environment, signals, and the webhook configuration object.
- The ClusterAddress override and the Proxy/ProxyFunc endpoints: debug and unfinished routing, taken to be off.
- IPv6, host names, empty hosts, service names and signed ports in dialled texts: only dotted quads with a numeric port are parsed.
- The accept loops: each accepted connection is handled on its own, and a failed accept is retried.
- HandleExternalConnection: proved without interference between its statements; the step system has the interleavings.
- CgConnect4: starts once the configuration entry has been written; before that the prefix length is 0 and the shift undefined.
- NoProxyLoop: what the proxies later in a chain are told on their internal listeners is left open, a stale entry or the kernel's own answer.
- AwaitAnswer: only the read that internalProxy blocks on; the copy loops are library calls and exist as steps.
- Mutate: unmarshals the modelled pod fields only, with exact member names and without duplicate members; other fields that fail to unmarshal would also make the request malformed.
- SettledMeansDone: reads, writes and dials are taken to return; the dial timeouts enter only as a dial that fails.
- OnDelete: the final-state-unknown object an informer may deliver, on which the type assertion panics.
- The copies of the watcher in `watcher/`, and the ephemeral, sidecar, tunnel and demo programs.
