/**
  The admission webhook (controller/cmd/webhook.go, controller/cmd/sidecars.go): the mutation policy, the patch it
  produces for a pod, and the response. A pod arrives as the JSON document of the request; the fields the
  webhook reads are decoded from it.
 */
module Webhook {
  import opened Wrappers
  import opened JsonPatch

  const METADATA := "metadata"
  const SPEC := "spec"
  const ANNOTATIONS := "annotations"
  const INIT_CONTAINERS := "initContainers"
  const SHARE_PROCESS_NAMESPACE := "shareProcessNamespace"

  const DOMAIN := "sidecar-injector-webhook.thebsdbox.co.uk"
  const STATUS := "status"
  const INJECT_KEY := DOMAIN + "/" + "inject"
  const STATUS_KEY := DOMAIN + "/" + STATUS
  const INJECTED := "injected"

  const IGNORED_NAMESPACES: seq<string> := ["kube-system", "kube-public"]

  type Annotations = map<string, string>

  /** What the webhook reads of a pod; no annotations at all is Go's nil map. */
  datatype Pod = Pod(name: string, ns: string, annotations: Option<Annotations>, initContainers: seq<Json>)

  // ---- Decoding ----

  /** A member of an object; null counts as absent. */
  function Field(doc: Json, name: string): Option<Json> {
    if doc.Obj? && name in doc.members && !doc.members[name].Null? then Some(doc.members[name]) else None
  }

  predicate IsObject(doc: Option<Json>) {
    doc.Some? && doc.value.Obj?
  }

  predicate ObjectOrAbsent(doc: Option<Json>) {
    doc.None? || doc.value.Obj?
  }

  function SubField(doc: Json, name: string, sub: string): Option<Json> {
    match Field(doc, name)
    case Some(d) => Field(d, sub)
    case None => None
  }

  predicate TextOrNull(v: Json) {
    v.Str? || v.Null?
  }

  predicate DecodableAnnotations(a: Option<Json>) {
    match a
    case None => true
    case Some(Obj(m)) => forall k :: k in m ==> TextOrNull(m[k])
    case Some(_) => false
  }

  predicate DecodableContainers(a: Option<Json>) {
    match a
    case None => true
    case Some(Arr(es)) => forall i :: 0 <= i < |es| ==> es[i].Obj? || es[i].Null?
    case Some(_) => false
  }

  predicate DecodableText(a: Option<Json>) {
    a.None? || a.value.Str?
  }

  /** The document unmarshals into the modelled part of a pod. */
  predicate Decodable(doc: Json) {
    && (doc.Obj? || doc.Null?)
    && ObjectOrAbsent(Field(doc, METADATA))
    && ObjectOrAbsent(Field(doc, SPEC))
    && DecodableText(SubField(doc, METADATA, "name"))
    && DecodableText(SubField(doc, METADATA, "namespace"))
    && DecodableAnnotations(SubField(doc, METADATA, ANNOTATIONS))
    && DecodableContainers(SubField(doc, SPEC, INIT_CONTAINERS))
  }

  function TextOf(a: Option<Json>): string
    requires DecodableText(a)
  {
    if a.Some? then a.value.s else ""
  }

  function AnnotationsOf(a: Option<Json>): Option<Annotations>
    requires DecodableAnnotations(a)
  {
    match a
    case None => None
    case Some(Obj(m)) => Some(map k | k in m :: if m[k].Str? then m[k].s else "")
  }

  function ContainersOf(a: Option<Json>): seq<Json>
    requires DecodableContainers(a)
  {
    if a.Some? then a.value.elems else []
  }

  function Decode(doc: Json): (p: Pod)
    requires Decodable(doc)
  {
    Pod(TextOf(SubField(doc, METADATA, "name")),
        TextOf(SubField(doc, METADATA, "namespace")),
        AnnotationsOf(SubField(doc, METADATA, ANNOTATIONS)),
        ContainersOf(SubField(doc, SPEC, INIT_CONTAINERS)))
  }

  // ---- Policy ----

  /** strings.ToLower, as far as the ASCII words it is compared with can tell. */
  function LowerChar(c: char): char {
    if 'A' <= c <= 'Z' then c - 'A' + 'a'
    else if c == '\U{0130}' then 'i'
    else if c == '\U{212A}' then 'k'
    else c
  }

  function Lower(s: string): (t: string)
    ensures |t| == |s|
  {
    seq(|s|, i requires 0 <= i < |s| => LowerChar(s[i]))
  }

  /** Indexing a possibly nil map of strings. */
  function Lookup(a: Option<Annotations>, key: string): string {
    if a.Some? && key in a.value then a.value[key] else ""
  }

  const REFUSALS: set<string> := {"n", "not", "false", "off"}

  predicate Required(ignored: seq<string>, ns: string, annotations: Option<Annotations>) {
    && ns !in ignored
    && Lower(Lookup(annotations, STATUS_KEY)) != INJECTED
    && Lower(Lookup(annotations, INJECT_KEY)) !in REFUSALS
  }

  method MutationRequired(ignoredList: seq<string>, ns: string, annotations: Option<Annotations>)
    returns (required: bool)
    ensures required == Required(ignoredList, ns, annotations)
  {
    for i := 0 to |ignoredList|
      invariant ns !in ignoredList[..i]
    {
      if ns == ignoredList[i] {
        return false;
      }
    }
    var status := Lookup(annotations, STATUS_KEY);
    if Lower(status) == INJECTED {
      required := false;
    } else {
      var inject := Lower(Lookup(annotations, INJECT_KEY));
      if inject == "n" || inject == "not" || inject == "false" || inject == "off" {
        required := false;
      } else {
        required := true;
      }
    }
  }

  // ---- The proxy container ----

  function SecretName(podName: string): string {
    podName + "-smesh"
  }

  function EnvFromSecret(name: string, secret: string, key: string): Json {
    Obj(map["name" := Str(name),
            "valueFrom" := Obj(map["secretKeyRef" := Obj(map["name" := Str(secret), "key" := Str(key)])])])
  }

  /** The container smeshproxy returns, as it is marshalled. */
  function SmeshProxy(podName: string): Json {
    var secret := SecretName(podName);
    Obj(map["name" := Str("smesh-proxy"),
            "image" := Str("thebsdbox/smesh-proxy:v1"),
            "resources" := Obj(map[]),
            "securityContext" := Obj(map["privileged" := Bool(true)]),
            "restartPolicy" := Str("Always"),
            "env" := Arr([EnvFromSecret("SMESH-CA", secret, "ca"),
                          EnvFromSecret("SMESH-CERT", secret, "cert"),
                          EnvFromSecret("SMESH-KEY", secret, "key")])])
  }

  // ---- The patch ----

  function AddInitContainer(target: seq<Json>, add: Json, basePath: string): (op: Op) {
    if |target| == 0 then Op(Add, basePath, Arr([add])) else Op(Add, basePath + "/-", add)
  }

  function TextMap(m: Annotations): Json {
    Obj(map k | k in m :: Str(m[k]))
  }

  /** A missing or empty annotation. */
  predicate Unset(target: Option<Annotations>, key: string) {
    Lookup(target, key) == ""
  }

  const ANNOTATIONS_POINTER := "/" + METADATA + "/" + ANNOTATIONS

  function ReplaceOne(key: string, value: string): Op {
    Op(Replace, ANNOTATIONS_POINTER + "/" + key, Str(value))
  }

  function AddWhole(key: string, value: string): Op {
    Op(Add, ANNOTATIONS_POINTER, TextMap(map[key := value]))
  }

  /** The keys of added in the order the loop visits them; Go leaves the order open. */
  ghost predicate Enumerates(order: seq<string>, added: Annotations) {
    && (forall k :: k in added <==> k in order)
    && (forall i, j :: 0 <= i < j < |order| ==> order[i] != order[j])
  }

  /** The position of the first key that the pod does not have, |order| when it has them all. */
  function FirstUnset(target: Option<Annotations>, order: seq<string>): (k: nat)
    ensures k <= |order|
    ensures forall i :: 0 <= i < k ==> !Unset(target, order[i])
    ensures k < |order| ==> Unset(target, order[k])
  {
    if order == [] then 0
    else if Unset(target, order[0]) then 0
    else 1 + FirstUnset(target, order[1..])
  }

  /** Up to the first key the pod lacks the loop replaces one by one; from there on every key adds a whole map. */
  ghost predicate IsAnnotationPatch(target: Option<Annotations>, added: Annotations, order: seq<string>, patch: seq<Op>)
    requires Enumerates(order, added)
  {
    var k := FirstUnset(target, order);
    && |patch| == |order|
    && forall i :: 0 <= i < |order| ==>
         patch[i] == if i < k then ReplaceOne(order[i], added[order[i]]) else AddWhole(order[i], added[order[i]])
  }

  method UpdateAnnotation(target0: Option<Annotations>, added: Annotations, order: seq<string>) returns (patch: seq<Op>)
    requires Enumerates(order, added)
    ensures IsAnnotationPatch(target0, added, order, patch)
  {
    var target := target0;
    patch := [];
    ghost var k := FirstUnset(target0, order);
    for i := 0 to |order|
      invariant |patch| == i
      invariant i <= k ==> target == target0
      invariant i > k ==> target == Some(map[])
      invariant forall j :: 0 <= j < i ==>
                  patch[j] == if j < k then ReplaceOne(order[j], added[order[j]])
                              else AddWhole(order[j], added[order[j]])
    {
      var key, value := order[i], added[order[i]];
      if target.None? || Lookup(target, key) == "" {
        target := Some(map[]);
        patch := patch + [AddWhole(key, value)];
      } else {
        patch := patch + [ReplaceOne(key, value)];
      }
    }
  }

  // ---- Admission ----

  const CONTAINERS_POINTER := "/" + SPEC + "/" + INIT_CONTAINERS
  const SHARE_POINTER := "/" + SPEC + "/" + SHARE_PROCESS_NAMESPACE
  const SHARE_OP := Op(Replace, SHARE_POINTER, Bool(true))

  /** The operation for the one annotation that mutate passes. */
  function StatusOp(annotations: Option<Annotations>): Op {
    if Unset(annotations, STATUS_KEY) then AddWhole(STATUS_KEY, INJECTED) else ReplaceOne(STATUS_KEY, INJECTED)
  }

  function ContainerOp(pod: Pod): Op {
    AddInitContainer(pod.initContainers, SmeshProxy(pod.name), CONTAINERS_POINTER)
  }

  function PatchFor(pod: Pod): (patch: seq<Op>) {
    [ContainerOp(pod), StatusOp(pod.annotations), SHARE_OP]
  }

  method CreatePatch(pod: Pod, annotations: Annotations, order: seq<string>) returns (patch: seq<Op>)
    requires Enumerates(order, annotations)
    ensures |patch| == |order| + 2
    ensures patch[0] == ContainerOp(pod) && patch[|order| + 1] == SHARE_OP
    ensures IsAnnotationPatch(pod.annotations, annotations, order, patch[1..|order| + 1])
  {
    patch := [AddInitContainer(pod.initContainers, SmeshProxy(pod.name), CONTAINERS_POINTER)];
    var updates := UpdateAnnotation(pod.annotations, annotations, order);
    patch := patch + updates;
    patch := patch + [Op(Replace, SHARE_POINTER, Bool(true))];
    assert patch[1..|order| + 1] == updates;
  }

  datatype Response = Malformed | Allowed | AllowedWithPatch(patch: seq<Op>)

  function Review(doc: Json): Response {
    if !Decodable(doc) then Malformed
    else
      var pod := Decode(doc);
      if Required(IGNORED_NAMESPACES, pod.ns, pod.annotations) then AllowedWithPatch(PatchFor(pod)) else Allowed
  }

  method Mutate(raw: Json) returns (response: Response)
    ensures response == Review(raw)
  {
    if !Decodable(raw) {
      return Malformed;
    }
    var pod := Decode(raw);
    var required := MutationRequired(IGNORED_NAMESPACES, pod.ns, pod.annotations);
    if !required {
      return Allowed;
    }
    var annotations := map[STATUS_KEY := INJECTED];
    var patch := CreatePatch(pod, annotations, [STATUS_KEY]);
    assert patch[1] == patch[1..2][0];
    assert patch == PatchFor(pod);
    return AllowedWithPatch(patch);
  }
}
