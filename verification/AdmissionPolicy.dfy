/**
  Which pods the webhook patches, said of the document alone: the texts at three locations, compared with words in
  any letter case.
 */
module AdmissionPolicy {
  import opened Wrappers
  import opened JsonPatch
  import opened Webhook
  import opened AdmissionProofs

  /** The text at a location; absent, null and anything else read as empty. */
  function TextAt(doc: Json, path: Path): string {
    match Get(doc, path)
    case Some(Str(s)) => s
    case _ => ""
  }

  /** One character is a lower-case letter l in some case; two letters have a third form outside ASCII. */
  predicate IsCaseOfChar(c: char, l: char) {
    || c == l
    || ('a' <= l <= 'z' && 'A' <= c <= 'Z' && c - 'A' == l - 'a')
    || (l == 'i' && c == '\U{0130}')
    || (l == 'k' && c == '\U{212A}')
  }

  /** A text is a word in some letter case, position by position. */
  predicate IsCaseOf(s: string, word: string) {
    |s| == |word| && forall i :: 0 <= i < |s| ==> IsCaseOfChar(s[i], word[i])
  }

  predicate LowerLetters(word: string) {
    forall i :: 0 <= i < |word| ==> 'a' <= word[i] <= 'z'
  }

  lemma LowerIsCase(s: string, word: string)
    requires LowerLetters(word)
    ensures Lower(s) == word <==> IsCaseOf(s, word)
  {
    if IsCaseOf(s, word) {
      forall i | 0 <= i < |s|
        ensures Lower(s)[i] == word[i]
      {
        assert IsCaseOfChar(s[i], word[i]);
      }
    }
    if Lower(s) == word {
      forall i | 0 <= i < |s|
        ensures IsCaseOfChar(s[i], word[i])
      {
        assert Lower(s)[i] == word[i];
      }
    }
  }

  const STATUS_LOCATION: Path := ["metadata", "annotations", "sidecar-injector-webhook.thebsdbox.co.uk/status"]
  const INJECT_LOCATION: Path := ["metadata", "annotations", "sidecar-injector-webhook.thebsdbox.co.uk/inject"]
  const NAMESPACE_LOCATION: Path := ["metadata", "namespace"]

  lemma KeyTexts()
    ensures STATUS_KEY == "sidecar-injector-webhook.thebsdbox.co.uk/status"
    ensures INJECT_KEY == "sidecar-injector-webhook.thebsdbox.co.uk/inject"
  {
  }

  lemma AnnotationText(doc: Json, key: string)
    requires Decodable(doc)
    ensures Lookup(Decode(doc).annotations, key) == TextAt(doc, ["metadata", "annotations", key])
  {
    GetThree(doc, "metadata", "annotations", key);
  }

  lemma NamespaceText(doc: Json)
    requires Decodable(doc)
    ensures Decode(doc).ns == TextAt(doc, ["metadata", "namespace"])
  {
    GetTwo(doc, "metadata", "namespace");
  }

  /** The words that refuse injection, in any letter case. */
  predicate Refuses(inject: string) {
    IsCaseOf(inject, "n") || IsCaseOf(inject, "not") || IsCaseOf(inject, "false") || IsCaseOf(inject, "off")
  }

  lemma RefusalsAreWords(inject: string)
    ensures Lower(inject) in REFUSALS <==> Refuses(inject)
  {
    LowerIsCase(inject, "n");
    LowerIsCase(inject, "not");
    LowerIsCase(inject, "false");
    LowerIsCase(inject, "off");
  }

  /** The pods that get a patch, by the texts of the document. */
  ghost predicate WantsProxy(doc: Json) {
    && TextAt(doc, NAMESPACE_LOCATION) != "kube-system"
    && TextAt(doc, NAMESPACE_LOCATION) != "kube-public"
    && !IsCaseOf(TextAt(doc, STATUS_LOCATION), "injected")
    && !Refuses(TextAt(doc, INJECT_LOCATION))
  }

  /**
    The admission policy. A document that unmarshals is answered with a patch if and only if its namespace is neither
    kube-system nor kube-public, its status annotation is not "injected" and its inject annotation is none of "n",
    "not", "false" and "off", each in any letter case. The others are admitted as they are.
   */
  lemma PatchedIff(doc: Json)
    requires Decodable(doc)
    ensures Review(doc).AllowedWithPatch? <==> WantsProxy(doc)
    ensures !WantsProxy(doc) ==> Review(doc) == Allowed
  {
    KeyTexts();
    NamespaceText(doc);
    AnnotationText(doc, STATUS_KEY);
    AnnotationText(doc, INJECT_KEY);
    LowerIsCase(TextAt(doc, STATUS_LOCATION), "injected");
    RefusalsAreWords(TextAt(doc, INJECT_LOCATION));
    IgnoredNamespaces(TextAt(doc, NAMESPACE_LOCATION));
  }

  lemma IgnoredNamespaces(ns: string)
    ensures ns in IGNORED_NAMESPACES <==> ns == "kube-system" || ns == "kube-public"
  {
    assert IGNORED_NAMESPACES[0] == "kube-system" && IGNORED_NAMESPACES[1] == "kube-public";
  }

  /** A pod that says nothing is patched: no annotations, in any namespace but the two. */
  lemma SilentPodIsPatched(doc: Json)
    requires Decodable(doc) && Get(doc, ["metadata", "annotations"]).None?
    requires TextAt(doc, NAMESPACE_LOCATION) != "kube-system" && TextAt(doc, NAMESPACE_LOCATION) != "kube-public"
    ensures Review(doc).AllowedWithPatch?
  {
    GetTwo(doc, "metadata", "annotations");
    GetThree(doc, "metadata", "annotations", "sidecar-injector-webhook.thebsdbox.co.uk/status");
    GetThree(doc, "metadata", "annotations", "sidecar-injector-webhook.thebsdbox.co.uk/inject");
    PatchedIff(doc);
  }

  /** Ordinary documents unmarshal: metadata with a name and a namespace, and a spec with any containers. */
  lemma OrdinaryPodUnmarshals(name: string, ns: string, containers: Json)
    ensures var doc := Obj(map["metadata" := Obj(map["name" := Str(name), "namespace" := Str(ns)]),
                               "spec" := Obj(map["containers" := containers])]);
            && Decodable(doc)
            && (ns != "kube-system" && ns != "kube-public" ==> Review(doc).AllowedWithPatch?)
  {
    var metadata := map["name" := Str(name), "namespace" := Str(ns)];
    var spec := map["containers" := containers];
    var doc := Obj(map["metadata" := Obj(metadata), "spec" := Obj(spec)]);
    NamesDiffer();
    assert "annotations" !in metadata && "initContainers" !in spec;
    assert Decodable(doc);
    GetTwo(doc, "metadata", "annotations");
    GetTwo(doc, "metadata", "namespace");
    if ns != "kube-system" && ns != "kube-public" {
      SilentPodIsPatched(doc);
    }
  }

  lemma NamesDiffer()
    ensures "annotations" != "name" && "annotations" != "namespace" && "name" != "namespace"
    ensures "initContainers" != "containers" && "metadata" != "spec"
  {
    assert |"annotations"| == 11 && |"name"| == 4 && |"namespace"| == 9;
    assert |"initContainers"| == 14 && |"containers"| == 10 && |"metadata"| == 8 && |"spec"| == 4;
  }

  // ---- Which documents unmarshal ----

  /** Nothing, or null, at a location. */
  predicate AbsentAt(doc: Json, path: Path) {
    Get(doc, path).None? || Get(doc, path).value.Null?
  }

  predicate ObjectAt(doc: Json, path: Path) {
    AbsentAt(doc, path) || Get(doc, path).value.Obj?
  }

  predicate StringAt(doc: Json, path: Path) {
    AbsentAt(doc, path) || Get(doc, path).value.Str?
  }

  predicate ContainersAt(doc: Json, path: Path) {
    || AbsentAt(doc, path)
    || (Get(doc, path).value.Arr? && forall e :: e in Get(doc, path).value.elems ==> e.Obj? || e.Null?)
  }

  lemma FieldAt(doc: Json, a: string)
    requires doc.Obj? || doc.Null?
    ensures Field(doc, a).None? <==> AbsentAt(doc, [a])
    ensures Field(doc, a).Some? ==> Get(doc, [a]) == Field(doc, a)
  {
    OneField(doc, a);
  }

  lemma SubFieldAt(doc: Json, a: string, b: string)
    requires (doc.Obj? || doc.Null?) && ObjectAt(doc, [a])
    ensures SubField(doc, a, b).None? <==> AbsentAt(doc, [a, b])
    ensures SubField(doc, a, b).Some? ==> Get(doc, [a, b]) == SubField(doc, a, b)
  {
    FieldAt(doc, a);
    GetTwo(doc, a, b);
    OneField(doc, a);
  }

  lemma ContainersDecodable(doc: Json)
    requires (doc.Obj? || doc.Null?) && ObjectAt(doc, ["spec"])
    ensures DecodableContainers(SubField(doc, SPEC, INIT_CONTAINERS)) <==> ContainersAt(doc, ["spec", "initContainers"])
  {
    SubFieldAt(doc, "spec", "initContainers");
    match SubField(doc, SPEC, INIT_CONTAINERS)
    case Some(Arr(es)) =>
      assert forall i :: 0 <= i < |es| ==> es[i] in es;
    case _ =>
  }

  lemma AnnotationsDecodable(doc: Json)
    requires (doc.Obj? || doc.Null?) && ObjectAt(doc, ["metadata"])
    ensures DecodableAnnotations(SubField(doc, METADATA, ANNOTATIONS)) <==>
              && ObjectAt(doc, ["metadata", "annotations"])
              && forall k :: StringAt(doc, ["metadata", "annotations", k])
  {
    SubFieldAt(doc, "metadata", "annotations");
    forall k
      ensures Get(doc, ["metadata", "annotations", k]) ==
              match Get(doc, ["metadata", "annotations"]) case Some(d) => Child(d, k) case None => None
    {
      GetTwo(doc, "metadata", "annotations");
      GetThree(doc, "metadata", "annotations", k);
    }
    match SubField(doc, METADATA, ANNOTATIONS)
    case Some(Obj(m)) =>
      forall k | k in m
        ensures TextOrNull(m[k]) <==> StringAt(doc, ["metadata", "annotations", k])
      {
        assert Get(doc, ["metadata", "annotations", k]) == Some(m[k]);
      }
    case _ =>
  }

  /**
    The documents that unmarshal, by their locations: objects with an object or nothing at metadata, spec and
    annotations, text or nothing at name, namespace and every annotation, and a list of objects at initContainers.
    A null counts as nothing.
   */
  lemma UnmarshalsIff(doc: Json)
    ensures Review(doc) != Malformed <==>
              && (doc.Obj? || doc.Null?)
              && ObjectAt(doc, ["metadata"]) && ObjectAt(doc, ["spec"])
              && StringAt(doc, ["metadata", "name"]) && StringAt(doc, ["metadata", "namespace"])
              && ObjectAt(doc, ["metadata", "annotations"])
              && (forall k :: StringAt(doc, ["metadata", "annotations", k]))
              && ContainersAt(doc, ["spec", "initContainers"])
  {
    if doc.Obj? || doc.Null? {
      FieldAt(doc, "metadata");
      FieldAt(doc, "spec");
      if ObjectAt(doc, ["metadata"]) && ObjectAt(doc, ["spec"]) {
        SubFieldAt(doc, "metadata", "name");
        SubFieldAt(doc, "metadata", "namespace");
        AnnotationsDecodable(doc);
        ContainersDecodable(doc);
      }
    }
  }

  // ---- Which patches apply ----

  predicate IsObjectAt(doc: Json, path: Path) {
    Get(doc, path).Some? && Get(doc, path).value.Obj?
  }

  /**
    When a patch that the webhook answers with applies, by the document: metadata and spec are objects, the status
    annotation is absent, null or empty, and spec has shareProcessNamespace unless replace is lenient.
   */
  lemma PatchAppliesIff(policy: Policy, doc: Json)
    requires Review(doc).AllowedWithPatch?
    ensures ApplyAll(policy, doc, Review(doc).patch).Some? <==>
              && IsObjectAt(doc, ["metadata"]) && IsObjectAt(doc, ["spec"])
              && TextAt(doc, STATUS_LOCATION) == ""
              && (policy.Lenient? || Get(doc, ["spec", "shareProcessNamespace"]).Some?)
  {
    PatchMeaning(policy, doc);
    KeyTexts();
    AnnotationText(doc, STATUS_KEY);
    FieldAt(doc, "metadata");
    FieldAt(doc, "spec");
    GetTwo(doc, "spec", "shareProcessNamespace");
    OneField(doc, "spec");
  }

  lemma UnsetIsEmpty(doc: Json, key: string)
    requires Decodable(doc)
    ensures Unset(Decode(doc).annotations, key) <==> TextAt(doc, ["metadata", "annotations", key]) == ""
  {
    AnnotationText(doc, key);
  }

  // ---- What is injected ----

  /** The old containers of a document; anything but a list reads as none. */
  function ListAt(doc: Json, path: Path): seq<Json> {
    match Get(doc, path)
    case Some(Arr(es)) => es
    case _ => []
  }

  /** The injected list is the old list of the document with the proxy for the document's name behind it. */
  lemma InjectedContainers(doc: Json)
    requires Decodable(doc) && IsObject(Field(doc, METADATA)) && IsObject(Field(doc, SPEC))
    ensures Get(Injected(doc), ["spec", "initContainers"]) ==
            Some(Arr(ListAt(doc, ["spec", "initContainers"]) + [SmeshProxy(TextAt(doc, ["metadata", "name"]))]))
  {
    GetTwo(doc, "spec", "initContainers");
    GetTwo(doc, "metadata", "name");
    InjectedLocations(doc, []);
  }

  /** The proxy container: its name and image, privileged, and restarted for as long as the pod runs. */
  lemma ProxyContainer(podName: string)
    ensures TextAt(SmeshProxy(podName), ["name"]) == "smesh-proxy"
    ensures TextAt(SmeshProxy(podName), ["image"]) == "thebsdbox/smesh-proxy:v1"
    ensures TextAt(SmeshProxy(podName), ["restartPolicy"]) == "Always"
    ensures Get(SmeshProxy(podName), ["securityContext", "privileged"]) == Some(Bool(true))
  {
    OneField(SmeshProxy(podName), "name");
    OneField(SmeshProxy(podName), "image");
    OneField(SmeshProxy(podName), "restartPolicy");
    GetTwo(SmeshProxy(podName), "securityContext", "privileged");
    assert |"name"| == 4 && |"image"| == 5 && |"resources"| == 9 && |"env"| == 3;
    assert |"securityContext"| == 15 && |"restartPolicy"| == 13;
  }

  lemma OneField(doc: Json, a: string)
    ensures Get(doc, [a]) == Child(doc, a)
  {
    assert [a][1..] == [];
    match Child(doc, a) {
      case Some(d) => assert Get(doc, [a]) == Get(d, []);
      case None =>
    }
  }
}
