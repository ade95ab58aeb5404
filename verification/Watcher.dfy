/**
  The controller's pod watcher (controller/cmd/watcher.go): certificates are issued into two shared fields and
  copied into create-only secrets. A certificate or key is a token that carries the number of the call it came from.
 */
module Watcher {
  import opened Wrappers
  import opened JsonPatch
  import opened Webhook

  datatype PodObject = PodObject(ns: string, name: string, ip: string)

  datatype Cert = Cert(commonName: string, ip: Option<string>, serial: nat)

  datatype Data = CaData(ca: nat) | CertData(cert: Cert) | KeyData(serial: nat)

  datatype SecretId = SecretId(ns: string, name: string)

  type Secret = map<string, Data>

  const DEFAULT_NS := "default"

  // ---- Specification ----

  /** The certs object and the cluster's secrets; issued counts the calls of createCertificate. */
  datatype State = State(ca: nat, cert: Cert, key: nat, issued: nat, secrets: map<SecretId, Secret>)

  /** What the informer reports; ok tells whether the API server takes the resulting call. */
  datatype Event =
    | Added(pod: PodObject)
    | Updated(before: PodObject, now: PodObject, ok: bool)
    | Deleted(pod: PodObject, ok: bool)
  {
    /** The update gives a pod of this name a new, non-empty address. */
    predicate Assigns(name: string) {
      Updated? && now.name == name && before.ip != now.ip && now.ip != ""
    }

    predicate Removes(name: string) {
      Deleted? && pod.name == name
    }

    /** The API server is asked for a secret of this name and takes the call. */
    predicate Creates(name: string) {
      Assigns(name) && ok
    }

    /** The deletion reaches the secret of this name in the default namespace. */
    predicate Clears(name: string) {
      Removes(name) && ok && pod.ns == DEFAULT_NS
    }
  }

  function PodSecret(name: string): SecretId {
    SecretId(DEFAULT_NS, SecretName(name))
  }

  function SecretOf(ca: nat, cert: Cert, key: nat): Secret {
    map["ca" := CaData(ca), "cert" := CertData(cert), "key" := KeyData(key)]
  }

  function Step(s: State, e: Event): State {
    match e
    case Added(_) => s
    case Updated(before, now, ok) =>
      if !e.Assigns(now.name) then s
      else
        var cert := Cert(now.name, Some(now.ip), s.issued);
        var id := PodSecret(now.name);
        var created := ok && id !in s.secrets;
        State(s.ca, cert, s.issued, s.issued + 1,
              if created then s.secrets[id := SecretOf(s.ca, cert, s.issued)] else s.secrets)
    case Deleted(pod, ok) =>
      if ok then s.(secrets := s.secrets - {SecretId(pod.ns, SecretName(pod.name))}) else s
  }

  // ---- The handlers ----

  class Handler {
    const cacert: nat
    var cert: Cert
    var key: nat
    var issued: nat
    var secrets: map<SecretId, Secret>

    /** The controller starts by issuing its own serving certificate into the same fields; secrets may exist. */
    constructor (ca: nat, commonName: string, secrets: map<SecretId, Secret>)
      ensures View() == Initial(ca, commonName, secrets)
    {
      cacert := ca;
      cert, key, issued := Cert(commonName, None, 0), 0, 1;
      this.secrets := secrets;
    }

    ghost function View(): State
      reads this
    {
      State(cacert, cert, key, issued, secrets)
    }

    method CreateCertificate(commonName: string, ip: Option<string>)
      modifies this`cert, this`key, this`issued
      ensures cert == Cert(commonName, ip, old(issued)) && key == old(issued) && issued == old(issued) + 1
    {
      cert := Cert(commonName, ip, issued);
      key := issued;
      issued := issued + 1;
    }

    /** Creates a secret from whatever the shared fields hold; creating an existing secret is an error. */
    method LoadSecret(name: string, ok: bool) returns (err: bool)
      modifies this`secrets
      ensures err == (!ok || PodSecret(name) in old(secrets))
      ensures secrets == if err then old(secrets) else old(secrets)[PodSecret(name) := SecretOf(cacert, cert, key)]
    {
      var secretMap: Secret := map[];
      secretMap := secretMap["ca" := CaData(cacert)];
      secretMap := secretMap["cert" := CertData(cert)];
      secretMap := secretMap["key" := KeyData(key)];
      assert secretMap == SecretOf(cacert, cert, key);
      var id := SecretId(DEFAULT_NS, name + "-smesh");
      if !ok || id in secrets {
        return true;
      }
      secrets := secrets[id := secretMap];
      return false;
    }

    method OnUpdate(oldPod: PodObject, newPod: PodObject, ok: bool)
      modifies this
      ensures View() == Step(old(View()), Updated(oldPod, newPod, ok))
    {
      if oldPod.ip != newPod.ip && newPod.ip != "" {
        CreateCertificate(newPod.name, Some(newPod.ip));
        var err := LoadSecret(newPod.name, ok);
        // An error is only logged.
      }
    }

    method OnDelete(p: PodObject, ok: bool)
      modifies this
      ensures View() == Step(old(View()), Deleted(p, ok))
    {
      if ok {
        secrets := secrets - {SecretId(p.ns, p.name + "-smesh")};
      }
    }

    method OnAdd(p: PodObject)
      ensures View() == Step(old(View()), Added(p))
    {
    }
  }

  function Initial(ca: nat, commonName: string, secrets: map<SecretId, Secret>): State {
    State(ca, Cert(commonName, None, 0), 0, 1, secrets)
  }

  // ---- Runs ----

  type Run = seq<Event>

  function After(s: State, es: Run): State {
    if es == [] then s else Step(After(s, es[..|es| - 1]), es[|es| - 1])
  }

  /** A stored secret belongs to a pod of its name, and its certificate and key come from one call for that pod. */
  ghost predicate Paired(s: State, id: SecretId)
    requires id in s.secrets
  {
    exists c: Cert ::
      && s.secrets[id] == SecretOf(s.ca, c, c.serial)
      && id == PodSecret(c.commonName)
      && c.ip.Some? && c.ip.value != ""
      && c.serial < s.issued
  }

  /**
    Shared fields never leak into a wrong secret: in every run, API failures and other namespaces included, a secret
    is as it was at the start or holds one call's pair for a pod of its name.
   */
  lemma {:induction false} SecretsArePaired(s0: State, es: Run, id: SecretId)
    requires id in After(s0, es).secrets
    ensures Paired(After(s0, es), id) || (id in s0.secrets && After(s0, es).secrets[id] == s0.secrets[id])
  {
    if es != [] {
      var front := es[..|es| - 1];
      var s, t := After(s0, front), After(s0, es);
      if id in s.secrets {
        SecretsArePaired(s0, front, id);
        if Paired(s, id) {
          var c: Cert :| && s.secrets[id] == SecretOf(s.ca, c, c.serial) && id == PodSecret(c.commonName)
                         && c.ip.Some? && c.ip.value != "" && c.serial < s.issued;
          assert t.secrets[id] == SecretOf(t.ca, c, c.serial);
        }
      } else {
        var c := t.cert;
        assert t.secrets[id] == SecretOf(t.ca, c, c.serial);
      }
    }
  }

  // ---- Which secrets exist ----

  /** Where the secret of a name comes from: nowhere, from before the run, or from an update of the run. */
  datatype Source = Absent | Inherited | IssuedAt(step: nat)

  function Origin(es: Run, name: string, inherited: bool): (o: Source)
    ensures o.IssuedAt? ==> o.step < |es| && es[o.step].Creates(name)
  {
    if es == [] then if inherited then Inherited else Absent
    else
      var o := Origin(es[..|es| - 1], name, inherited);
      if es[|es| - 1].Clears(name) then Absent
      else if o.Absent? && es[|es| - 1].Creates(name) then IssuedAt(|es| - 1)
      else o
  }

  /** The secret of the name is removed after step i and before step j; -1 is the start of the run. */
  ghost predicate ClearedBetween(es: Run, name: string, i: int, j: int)
    requires -1 <= i && j <= |es|
  {
    exists d :: i < d < j && es[d].Clears(name)
  }

  lemma ClearedInFront(es: Run, name: string, i: int, j: int)
    requires es != [] && -1 <= i && j < |es|
    ensures ClearedBetween(es[..|es| - 1], name, i, j) <==> ClearedBetween(es, name, i, j)
  {
    var front := es[..|es| - 1];
    if d :| i < d < j && es[d].Clears(name) {
      assert front[d].Clears(name);
    }
    if d :| i < d < j && front[d].Clears(name) {
      assert es[d].Clears(name);
    }
  }

  // Whether the last step clears the secret, or else the steps before it.
  lemma ClearedByEnd(es: Run, name: string, i: int)
    requires es != [] && -1 <= i < |es| - 1
    ensures ClearedBetween(es, name, i, |es|) <==>
              es[|es| - 1].Clears(name) || ClearedBetween(es[..|es| - 1], name, i, |es| - 1)
  {
    ClearedInFront(es, name, i, |es| - 1);
    if es[|es| - 1].Clears(name) {
      assert i < |es| - 1 < |es|;
    }
  }

  /** The origin is the first creation since the secret was last removed. */
  ghost predicate IsOrigin(es: Run, name: string, inherited: bool, o: Source) {
    match o
    case IssuedAt(i) =>
      && i < |es| && es[i].Creates(name)
      && !ClearedBetween(es, name, i, |es|)
      && (inherited ==> ClearedBetween(es, name, -1, i))
      && (forall j :: 0 <= j < i && es[j].Creates(name) ==> ClearedBetween(es, name, j, i))
    case Inherited =>
      inherited && !ClearedBetween(es, name, -1, |es|)
    case Absent =>
      && (inherited ==> ClearedBetween(es, name, -1, |es|))
      && (forall j :: 0 <= j < |es| && es[j].Creates(name) ==> ClearedBetween(es, name, j, |es|))
  }

  lemma {:induction false} OriginMeaning(es: Run, name: string, inherited: bool)
    ensures IsOrigin(es, name, inherited, Origin(es, name, inherited))
  {
    if es != [] {
      var front := es[..|es| - 1];
      OriginMeaning(front, name, inherited);
      forall i | -1 <= i < |es| - 1
        ensures ClearedBetween(es, name, i, |es|) <==>
                  es[|es| - 1].Clears(name) || ClearedBetween(front, name, i, |es| - 1)
      {
        ClearedByEnd(es, name, i);
      }
      forall i, j | -1 <= i && j < |es|
        ensures ClearedBetween(front, name, i, j) <==> ClearedBetween(es, name, i, j)
      {
        ClearedInFront(es, name, i, j);
      }
      assert forall k :: 0 <= k < |front| ==> front[k] == es[k];
    }
  }

  /** How many certificates a run has issued to pods. */
  function Issues(es: Run): nat {
    if es == [] then 0
    else Issues(es[..|es| - 1]) + if es[|es| - 1].Updated? && es[|es| - 1].Assigns(es[|es| - 1].now.name) then 1 else 0
  }

  lemma {:induction false} IssuedCounts(s0: State, es: Run)
    ensures After(s0, es).issued == s0.issued + Issues(es)
    ensures After(s0, es).ca == s0.ca
  {
    if es != [] {
      IssuedCounts(s0, es[..|es| - 1]);
    }
  }

  lemma SecretNamesDiffer(a: string, b: string)
    requires SecretName(a) == SecretName(b)
    ensures a == b
  {
    assert SecretName(a)[..|a|] == a && SecretName(b)[..|b|] == b;
  }

  /**
    In every run, refused calls and other namespaces included, a pod's secret exists exactly while it has an origin,
    and holds the address and serial of that update, or what it held at the start.
   */
  lemma {:induction false} SecretsMatchOrigins(s0: State, es: Run, name: string)
    ensures var s := After(s0, es);
            match Origin(es, name, PodSecret(name) in s0.secrets)
            case Absent => PodSecret(name) !in s.secrets
            case Inherited =>
              && PodSecret(name) in s.secrets && PodSecret(name) in s0.secrets
              && s.secrets[PodSecret(name)] == s0.secrets[PodSecret(name)]
            case IssuedAt(i) =>
              var serial := s0.issued + Issues(es[..i]);
              && PodSecret(name) in s.secrets
              && s.secrets[PodSecret(name)] == SecretOf(s0.ca, Cert(name, Some(es[i].now.ip), serial), serial)
  {
    if es != [] {
      var front, e := es[..|es| - 1], es[|es| - 1];
      SecretsMatchOrigins(s0, front, name);
      IssuedCounts(s0, front);
      match Origin(front, name, PodSecret(name) in s0.secrets) {
        case IssuedAt(i) => assert front[..i] == es[..i];
        case _ =>
      }
      var s := After(s0, front);
      assert After(s0, es) == Step(s, e);
      if e.Clears(name) {
      } else if e.Creates(name) {
        CreatingStep(s, e, name);
      } else {
        OthersUntouched(s, e, name);
      }
    }
  }

  // A creation stores the pod's secret unless it exists.
  lemma CreatingStep(s: State, e: Event, name: string)
    requires e.Creates(name)
    ensures PodSecret(name) in Step(s, e).secrets
    ensures Step(s, e).secrets[PodSecret(name)] ==
            if PodSecret(name) in s.secrets then s.secrets[PodSecret(name)]
            else SecretOf(s.ca, Cert(name, Some(e.now.ip), s.issued), s.issued)
  {
  }

  // A step for another pod, a refused call or a deletion elsewhere does not touch this secret.
  lemma OthersUntouched(s: State, e: Event, name: string)
    requires !e.Creates(name) && !e.Clears(name)
    ensures PodSecret(name) in Step(s, e).secrets <==> PodSecret(name) in s.secrets
    ensures PodSecret(name) in s.secrets ==> Step(s, e).secrets[PodSecret(name)] == s.secrets[PodSecret(name)]
  {
    match e
    case Updated(_, now, _) =>
      if SecretName(now.name) == SecretName(name) {
        SecretNamesDiffer(now.name, name);
      }
    case Deleted(pod, _) =>
      if SecretName(pod.name) == SecretName(name) {
        SecretNamesDiffer(pod.name, name);
      }
    case Added(_) =>
  }

  // ---- Lives of pods ----

  /** The pods that exist after a run, with their addresses. */
  function Live(es: Run): map<string, string> {
    if es == [] then map[]
    else
      var live := Live(es[..|es| - 1]);
      match es[|es| - 1]
      case Added(p) => live[p.name := p.ip]
      case Updated(_, now, _) => live[now.name := now.ip]
      case Deleted(p, _) => live - {p.name}
  }

  /**
    The informer sees each life whole: a pod appears without an address, its updates follow one another, an address
    once assigned stays, and only an existing pod is deleted.
   */
  ghost predicate WholeLives(es: Run) {
    es != [] ==>
      var live := Live(es[..|es| - 1]);
      && WholeLives(es[..|es| - 1])
      && match es[|es| - 1]
         case Added(p) => p.name !in live && p.ip == ""
         case Updated(before, now, _) =>
           && before.name == now.name && now.name in live && before.ip == live[now.name]
           && (before.ip != "" ==> now.ip == before.ip)
         case Deleted(p, _) => p.name in live
  }

  /** Every pod lives in the default namespace and every API call is taken. */
  ghost predicate Serviced(es: Run) {
    forall i :: 0 <= i < |es| ==>
      match es[i]
      case Added(p) => p.ns == DEFAULT_NS
      case Updated(before, now, ok) => before.ns == DEFAULT_NS && now.ns == DEFAULT_NS && ok
      case Deleted(p, ok) => p.ns == DEFAULT_NS && ok
  }

  /**
    Under whole lives, and with no secret left from before, the secrets are exactly those of the live pods that have
    an address, issued for that address.
   */
  lemma {:induction false} SecretsAreLivePods(s0: State, es: Run, name: string)
    requires Serviced(es) && WholeLives(es) && PodSecret(name) !in s0.secrets
    ensures var s := After(s0, es);
            var live := Live(es);
            && (PodSecret(name) in s.secrets <==> name in live && live[name] != "")
            && (PodSecret(name) in s.secrets ==>
                  exists serial ::
                    s.secrets[PodSecret(name)] == SecretOf(s0.ca, Cert(name, Some(live[name]), serial), serial))
  {
    SecretsMatchOrigins(s0, es, name);
    OriginIsLive(es, name);
  }

  lemma {:induction false} OriginIsLive(es: Run, name: string)
    requires Serviced(es) && WholeLives(es)
    ensures match Origin(es, name, false)
            case IssuedAt(i) => name in Live(es) && Live(es)[name] == es[i].now.ip
            case Absent => name in Live(es) ==> Live(es)[name] == ""
            case Inherited => false
  {
    if es != [] {
      var front := es[..|es| - 1];
      assert forall k :: 0 <= k < |front| ==> front[k] == es[k];
      OriginIsLive(front, name);
    }
  }

  /** The life of one pod: it appears, gets an address, and is removed. */
  function OneLife(name: string, ip: string): Run {
    var p := PodObject(DEFAULT_NS, name, "");
    [Added(p), Updated(p, p.(ip := ip), true), Deleted(p.(ip := ip), true)]
  }

  // Such a life is serviced and whole.
  lemma OneLifeIsWhole(name: string, ip: string)
    requires ip != ""
    ensures Serviced(OneLife(name, ip)) && WholeLives(OneLife(name, ip))
    ensures Serviced(OneLife(name, ip)[..2]) && WholeLives(OneLife(name, ip)[..2])
    ensures Live(OneLife(name, ip)[..2]) == map[name := ip] && Live(OneLife(name, ip)) == map[]
  {
    var es := OneLife(name, ip);
    assert es[..2][..1] == es[..1] && es[..1][..0] == [] && es[..2] == [es[0], es[1]] && es[..1] == [es[0]];
    assert Live([]) == map[] && Live(es[..1]) == map[name := ""];
    assert WholeLives([]) && WholeLives(es[..1]) && WholeLives(es[..2]);
  }

  /** A pod of the default namespace has a secret for its address from the address on, and none after its removal. */
  lemma OneLifeHasSecret(s0: State, name: string, ip: string)
    requires ip != "" && PodSecret(name) !in s0.secrets
    ensures var s := After(s0, OneLife(name, ip)[..2]);
            && PodSecret(name) in s.secrets
            && exists serial :: s.secrets[PodSecret(name)] == SecretOf(s0.ca, Cert(name, Some(ip), serial), serial)
    ensures PodSecret(name) !in After(s0, OneLife(name, ip)).secrets
  {
    OneLifeIsWhole(name, ip);
    SecretsAreLivePods(s0, OneLife(name, ip)[..2], name);
    SecretsAreLivePods(s0, OneLife(name, ip), name);
  }

  // ---- What the handlers do not do ----

  /** A secret does not follow a change of address: the new certificate stays in the shared fields. */
  lemma ChangedAddressKeepsSecret(s: State, before: PodObject, now: PodObject, ok: bool)
    requires PodSecret(now.name) in s.secrets
    requires before.ip != now.ip && now.ip != ""
    ensures var t := Step(s, Updated(before, now, ok));
            && t.secrets == s.secrets
            && t.cert == Cert(now.name, Some(now.ip), s.issued) && t.key == s.issued
  {
  }

  /** A deletion removes the pod's secret if and only if the call is taken and the pod is in the default namespace. */
  lemma DeletionClears(s: State, p: PodObject, ok: bool)
    requires PodSecret(p.name) in s.secrets
    ensures PodSecret(p.name) !in Step(s, Deleted(p, ok)).secrets <==> ok && p.ns == DEFAULT_NS
  {
  }

  /** In any run, a secret outlives its pod when every deletion after its creation is refused or elsewhere. */
  lemma OtherNamespaceLeavesSecret(s0: State, es: Run, name: string, i: nat)
    requires i < |es| && es[i].Creates(name)
    requires forall d :: i < d < |es| && es[d].Removes(name) ==> es[d].pod.ns != DEFAULT_NS || !es[d].ok
    ensures PodSecret(name) in After(s0, es).secrets
  {
    OriginMeaning(es, name, PodSecret(name) in s0.secrets);
    SecretsMatchOrigins(s0, es, name);
    assert !ClearedBetween(es, name, i, |es|);
  }

  // ---- The injected container ----

  /** Where an environment variable of a container gets its value from: the secret's name and the key in it. */
  function SecretRef(env: Json): Option<(string, string)> {
    match Get(env, ["valueFrom", "secretKeyRef", "name"])
    case Some(Str(name)) =>
      (match Get(env, ["valueFrom", "secretKeyRef", "key"])
       case Some(Str(key)) => Some((name, key))
       case _ => None)
    case _ => None
  }

  /**
    The injected proxy's three variables read the three keys of the secret of the name in the admitted document, in
    the pod's own namespace. That is the secret the watcher stores for the running pod if and only if the document
    carried the pod's own name and the pod is in the default namespace. A document without a name, whose pod is named
    by the API server, refers to a secret that no named pod has.
   */
  lemma ContainerReadsPodSecret(doc: Json, ns: string, podName: string, ca: nat, cert: Cert, key: nat)
    requires Decodable(doc)
    ensures var container := SmeshProxy(Decode(doc).name);
            && Get(container, ["env"]).Some? && Get(container, ["env"]).value.Arr?
            && var env := Get(container, ["env"]).value.elems;
               && |env| == 3
               && SecretRef(env[0]) == Some((ReadSecret(doc, ns).name, "ca"))
               && SecretRef(env[1]) == Some((ReadSecret(doc, ns).name, "cert"))
               && SecretRef(env[2]) == Some((ReadSecret(doc, ns).name, "key"))
    ensures SecretOf(ca, cert, key).Keys == {"ca", "cert", "key"}
    ensures ReadSecret(doc, ns) == PodSecret(podName) <==> Decode(doc).name == podName && ns == DEFAULT_NS
    ensures SubField(doc, METADATA, "name").None? && podName != "" ==> ReadSecret(doc, ns) != PodSecret(podName)
  {
    ThreeVariables(Decode(doc).name);
    if ReadSecret(doc, ns) == PodSecret(podName) {
      SecretNamesDiffer(Decode(doc).name, podName);
    }
  }

  /** A reference of a container names a secret in the namespace of the pod it runs in. */
  function ReadSecret(doc: Json, ns: string): SecretId
    requires Decodable(doc)
  {
    SecretId(ns, SecretName(Decode(doc).name))
  }

  /** Outside the default namespace no run of the watcher ever creates the secret that the container reads. */
  lemma {:induction false} NoSecretElsewhere(s0: State, es: Run, doc: Json, ns: string)
    requires Decodable(doc) && ns != DEFAULT_NS && ReadSecret(doc, ns) !in s0.secrets
    ensures ReadSecret(doc, ns) !in After(s0, es).secrets
  {
    if ReadSecret(doc, ns) in After(s0, es).secrets {
      SecretsArePaired(s0, es, ReadSecret(doc, ns));
    }
  }

  /** In the default namespace, the secret that the container reads exists exactly while it has an origin. */
  lemma ReadSecretHasOrigin(s0: State, es: Run, doc: Json)
    requires Decodable(doc)
    ensures var id := ReadSecret(doc, DEFAULT_NS);
            id in After(s0, es).secrets <==> Origin(es, Decode(doc).name, id in s0.secrets) != Absent
  {
    SecretsMatchOrigins(s0, es, Decode(doc).name);
  }

  /** What an environment variable of a container holds when its reference is looked up in a secret. */
  function ValueOf(container: Json, variable: string, secret: Secret): Option<Data> {
    match Get(container, ["env"])
    case Some(Arr(envs)) => FirstValue(envs, variable, secret)
    case _ => None
  }

  function FirstValue(envs: seq<Json>, variable: string, secret: Secret): Option<Data> {
    if envs == [] then None
    else if Get(envs[0], ["name"]) != Some(Str(variable)) then FirstValue(envs[1..], variable, secret)
    else
      match SecretRef(envs[0])
      case Some((_, key)) => if key in secret then Some(secret[key]) else None
      case None => None
  }

  lemma EnvNamed(name: string, secretName: string, key: string)
    ensures Get(EnvFromSecret(name, secretName, key), ["name"]) == Some(Str(name))
  {
    assert ["name"][1..] == [];
    assert |"name"| == 4 && |"valueFrom"| == 9;
    var env := EnvFromSecret(name, secretName, key);
    assert Get(env, ["name"]) == match Child(env, "name") case Some(d) => Get(d, []) case None => None;
  }

  lemma VariablesDiffer()
    ensures "SMESH-CA" != "SMESH-CERT" && "SMESH-CA" != "SMESH-KEY" && "SMESH-CERT" != "SMESH-KEY"
  {
    assert |"SMESH-CA"| == 8 && |"SMESH-CERT"| == 10 && |"SMESH-KEY"| == 9;
  }

  // Each variable of the proxy container holds the entry of its own key.
  lemma VariablesHold(name: string, secret: Secret)
    requires "ca" in secret && "cert" in secret && "key" in secret
    ensures ValueOf(SmeshProxy(name), "SMESH-CA", secret) == Some(secret["ca"])
    ensures ValueOf(SmeshProxy(name), "SMESH-CERT", secret) == Some(secret["cert"])
    ensures ValueOf(SmeshProxy(name), "SMESH-KEY", secret) == Some(secret["key"])
  {
    var a := EnvFromSecret("SMESH-CA", SecretName(name), "ca");
    var b := EnvFromSecret("SMESH-CERT", SecretName(name), "cert");
    var c := EnvFromSecret("SMESH-KEY", SecretName(name), "key");
    EnvRefersToSecret("SMESH-CA", SecretName(name), "ca");
    EnvRefersToSecret("SMESH-CERT", SecretName(name), "cert");
    EnvRefersToSecret("SMESH-KEY", SecretName(name), "key");
    EnvNamed("SMESH-CA", SecretName(name), "ca");
    EnvNamed("SMESH-CERT", SecretName(name), "cert");
    EnvNamed("SMESH-KEY", SecretName(name), "key");
    VariablesDiffer();
    EnvOfProxy(name);
    FindFirst(a, [b, c], "SMESH-CA", secret);
    FindLater(a, [b, c], "SMESH-CERT", secret);
    FindFirst(b, [c], "SMESH-CERT", secret);
    FindLater(a, [b, c], "SMESH-KEY", secret);
    FindLater(b, [c], "SMESH-KEY", secret);
    FindFirst(c, [], "SMESH-KEY", secret);
    assert [a] + [b, c] == [a, b, c] && [b] + [c] == [b, c] && [c] + [] == [c];
  }

  lemma EnvOfProxy(name: string)
    ensures Get(SmeshProxy(name), ["env"]) ==
            Some(Arr([EnvFromSecret("SMESH-CA", SecretName(name), "ca"),
                      EnvFromSecret("SMESH-CERT", SecretName(name), "cert"),
                      EnvFromSecret("SMESH-KEY", SecretName(name), "key")]))
  {
    assert ["env"][1..] == [];
    assert Get(SmeshProxy(name), ["env"]) ==
           match Child(SmeshProxy(name), "env") case Some(d) => Get(d, []) case None => None;
  }

  lemma FindFirst(env: Json, rest: seq<Json>, variable: string, secret: Secret)
    requires Get(env, ["name"]) == Some(Str(variable))
    requires SecretRef(env).Some? && SecretRef(env).value.1 in secret
    ensures FirstValue([env] + rest, variable, secret) == Some(secret[SecretRef(env).value.1])
  {
  }

  lemma FindLater(env: Json, rest: seq<Json>, variable: string, secret: Secret)
    requires Get(env, ["name"]) != Some(Str(variable))
    ensures FirstValue([env] + rest, variable, secret) == FirstValue(rest, variable, secret)
  {
    assert ([env] + rest)[1..] == rest;
  }

  /** In every run, what a secret that the watcher created holds, entry by entry. */
  lemma SecretContents(s0: State, es: Run, name: string)
    requires Origin(es, name, PodSecret(name) in s0.secrets).IssuedAt?
    ensures PodSecret(name) in After(s0, es).secrets
    ensures var i := Origin(es, name, PodSecret(name) in s0.secrets).step;
            var serial := s0.issued + Issues(es[..i]);
            var secret := After(s0, es).secrets[PodSecret(name)];
            && secret.Keys == {"ca", "cert", "key"}
            && secret["ca"] == CaData(s0.ca)
            && secret["cert"] == CertData(Cert(name, Some(es[i].now.ip), serial))
            && secret["key"] == KeyData(serial)
  {
    SecretsMatchOrigins(s0, es, name);
    EntriesDiffer();
  }

  lemma EntriesDiffer()
    ensures "ca" != "cert" && "ca" != "key" && "cert" != "key"
  {
    assert |"ca"| == 2 && |"cert"| == 4 && |"key"| == 3;
  }

  /**
    From the handlers to the container: in every run, in the default namespace, the proxy injected into a pod whose
    document carried its name finds the CA in SMESH-CA, in SMESH-CERT a certificate for its pod's name and address,
    and in SMESH-KEY the key of that very certificate.
   */
  lemma ContainerGetsItsCertificate(s0: State, es: Run, doc: Json)
    requires Decodable(doc)
    requires Origin(es, Decode(doc).name, ReadSecret(doc, DEFAULT_NS) in s0.secrets).IssuedAt?
    ensures ReadSecret(doc, DEFAULT_NS) in After(s0, es).secrets
    ensures var name := Decode(doc).name;
            var i := Origin(es, name, ReadSecret(doc, DEFAULT_NS) in s0.secrets).step;
            var serial := s0.issued + Issues(es[..i]);
            var secret := After(s0, es).secrets[ReadSecret(doc, DEFAULT_NS)];
            && ValueOf(SmeshProxy(name), "SMESH-CA", secret) == Some(CaData(s0.ca))
            && ValueOf(SmeshProxy(name), "SMESH-CERT", secret) == Some(CertData(Cert(name, Some(es[i].now.ip), serial)))
            && ValueOf(SmeshProxy(name), "SMESH-KEY", secret) == Some(KeyData(serial))
  {
    SecretContents(s0, es, Decode(doc).name);
    VariablesHold(Decode(doc).name, After(s0, es).secrets[ReadSecret(doc, DEFAULT_NS)]);
  }

  lemma ThreeVariables(name: string)
    ensures Get(SmeshProxy(name), ["env"]).Some? && Get(SmeshProxy(name), ["env"]).value.Arr?
    ensures var env := Get(SmeshProxy(name), ["env"]).value.elems;
            && |env| == 3
            && SecretRef(env[0]) == Some((SecretName(name), "ca"))
            && SecretRef(env[1]) == Some((SecretName(name), "cert"))
            && SecretRef(env[2]) == Some((SecretName(name), "key"))
  {
    assert ["env"][1..] == [];
    var secret := SecretName(name);
    EnvRefersToSecret("SMESH-CA", secret, "ca");
    EnvRefersToSecret("SMESH-CERT", secret, "cert");
    EnvRefersToSecret("SMESH-KEY", secret, "key");
  }

  lemma EnvRefersToSecret(name: string, secret: string, key: string)
    ensures SecretRef(EnvFromSecret(name, secret, key)) == Some((secret, key))
  {
    GetThree(EnvFromSecret(name, secret, key), "valueFrom", "secretKeyRef", "name");
    GetThree(EnvFromSecret(name, secret, key), "valueFrom", "secretKeyRef", "key");
    assert "name" != "key" && "name" != "valueFrom";
  }
}
