/**
  What the generated patch does to a pod document: exactly when it applies, the document it produces, what it
  leaves alone, that the order of its operations does not matter, and that a pod is patched only once.
 */
module AdmissionProofs {
  import opened Wrappers
  import opened Text
  import opened JsonPatch
  import opened Webhook

  // ---- The pointers of the patch ----

  predicate Plain(t: string) {
    '~' !in t && '/' !in t
  }

  lemma PointerCons(t: string, rest: Path)
    requires Plain(t)
    ensures Pointer([t] + rest) == "/" + t + Pointer(rest)
  {
    PlainToken(t);
    assert ([t] + rest)[1..] == rest;
  }

  lemma OneToken(a: string)
    requires Plain(a)
    ensures Pointer([a]) == "/" + a
  {
    PointerCons(a, []);
    assert [a] + [] == [a];
    assert "/" + a + [] == "/" + a;
  }

  lemma TwoTokens(a: string, b: string)
    requires Plain(a) && Plain(b)
    ensures Pointer([a, b]) == "/" + a + "/" + b
  {
    OneToken(b);
    PointerCons(a, [b]);
    assert [a] + [b] == [a, b];
    assert "/" + a + ("/" + b) == "/" + a + "/" + b;
  }

  lemma ThreeTokens(a: string, b: string, c: string)
    requires Plain(a) && Plain(b) && Plain(c)
    ensures Pointer([a, b, c]) == "/" + a + "/" + b + "/" + c
  {
    TwoTokens(b, c);
    PointerCons(a, [b, c]);
    assert [a] + [b, c] == [a, b, c];
    assert "/" + a + ("/" + b + "/" + c) == "/" + a + "/" + b + "/" + c;
  }

  lemma FourTokens(a: string, b: string, c: string, d: string)
    requires Plain(a) && Plain(b) && Plain(c) && Plain(d)
    ensures Pointer([a, b, c, d]) == "/" + a + "/" + b + "/" + (c + "/" + d)
  {
    TwoTokens(c, d);
    PointerCons(b, [c, d]);
    PointerCons(a, [b, c, d]);
    assert [b] + [c, d] == [b, c, d] && [a] + [b, c, d] == [a, b, c, d];
    assert "/" + b + ("/" + c + "/" + d) == "/" + b + "/" + (c + "/" + d);
    assert "/" + a + ("/" + b + "/" + (c + "/" + d)) == "/" + a + "/" + b + "/" + (c + "/" + d);
  }

  lemma NamesArePlain()
    ensures Plain(METADATA) && Plain(SPEC) && Plain(ANNOTATIONS) && Plain(INIT_CONTAINERS) && Plain("-")
    ensures Plain(SHARE_PROCESS_NAMESPACE)
    ensures Plain(DOMAIN) && Plain(STATUS)
  {
    MetadataNamesArePlain();
    SpecNamesArePlain();
    ShareIsPlain();
    DomainIsPlain();
  }

  lemma MetadataNamesArePlain()
    ensures Plain(METADATA) && Plain(ANNOTATIONS) && Plain(STATUS)
  {
  }

  lemma SpecNamesArePlain()
    ensures Plain(SPEC) && Plain(INIT_CONTAINERS) && Plain("-")
  {
  }

  lemma ShareIsPlain()
    ensures Plain(SHARE_PROCESS_NAMESPACE)
  {
  }

  lemma DomainIsPlain()
    ensures Plain(DOMAIN)
  {
  }

  const CONTAINERS_PATH: Path := [SPEC, INIT_CONTAINERS]
  const APPEND_PATH: Path := [SPEC, INIT_CONTAINERS, "-"]
  const ANNOTATIONS_PATH: Path := [METADATA, ANNOTATIONS]
  const STATUS_PATH: Path := [METADATA, ANNOTATIONS, DOMAIN, STATUS]
  const SHARE_PATH: Path := [SPEC, SHARE_PROCESS_NAMESPACE]

  // The slash in the annotation key is not escaped, so its pointer has one token too many.
  lemma PatchPointers()
    ensures ParsePointer(CONTAINERS_POINTER) == Some(CONTAINERS_PATH)
    ensures ParsePointer(CONTAINERS_POINTER + "/-") == Some(APPEND_PATH)
    ensures ParsePointer(ANNOTATIONS_POINTER) == Some(ANNOTATIONS_PATH)
    ensures ParsePointer(ANNOTATIONS_POINTER + "/" + STATUS_KEY) == Some(STATUS_PATH)
    ensures ParsePointer(SHARE_POINTER) == Some(SHARE_PATH)
  {
    NamesArePlain();
    TwoTokens(SPEC, INIT_CONTAINERS);
    PointerRoundTrip(CONTAINERS_PATH);
    AppendToken(SPEC, INIT_CONTAINERS);
    TwoTokens(METADATA, ANNOTATIONS);
    PointerRoundTrip(ANNOTATIONS_PATH);
    FourTokens(METADATA, ANNOTATIONS, DOMAIN, STATUS);
    PointerRoundTrip(STATUS_PATH);
    TwoTokens(SPEC, SHARE_PROCESS_NAMESPACE);
    PointerRoundTrip(SHARE_PATH);
  }

  lemma AppendToken(a: string, b: string)
    requires Plain(a) && Plain(b)
    ensures ParsePointer("/" + a + "/" + b + "/-") == Some([a, b, "-"])
  {
    assert Plain("-");
    ThreeTokens(a, b, "-");
    PointerRoundTrip([a, b, "-"]);
    assert "/" + a + "/" + b + "/-" == "/" + a + "/" + b + "/" + "-";
  }

  // ---- What each operation does ----

  /** The document with member b of its member a set. */
  function SetIn(doc: Json, a: string, b: string, v: Json): Json
    requires IsObject(Field(doc, a))
  {
    Obj(doc.members[a := Obj(doc.members[a].members[b := v])])
  }

  lemma EditTwo(policy: Policy, doc: Json, kind: Kind, a: string, b: string, v: Json)
    requires doc.Obj? || doc.Null?
    requires ObjectOrAbsent(Field(doc, a))
    ensures ApplyAt(policy, doc, kind, [a, b], v) ==
            if IsObject(Field(doc, a)) && (kind.Add? || policy.Lenient? || b in Field(doc, a).value.members)
            then Some(SetIn(doc, a, b, v))
            else None
  {
    assert [a, b][1..] == [b] && [b][1..] == [];
    if doc.Obj? && a in doc.members {
      BelowMember(policy, doc.members, Edit(kind, [a, b], v));
    } else if doc.Obj? {
      NoSuchChild(policy, doc, Edit(kind, [a, b], v));
    }
  }

  lemma EditAppend(policy: Policy, doc: Json, a: string, b: string, v: Json)
    requires IsObject(Field(doc, a)) && b in Field(doc, a).value.members && Field(doc, a).value.members[b].Arr?
    ensures ApplyAt(policy, doc, Add, [a, b, "-"], v) ==
            Some(SetIn(doc, a, b, Arr(Field(doc, a).value.members[b].elems + [v])))
  {
    assert [a, b, "-"][1..] == [b, "-"] && [b, "-"][1..] == ["-"] && ["-"][1..] == [];
    BelowMember(policy, doc.members, Edit(Add, [a, b, "-"], v));
    BelowMember(policy, doc.members[a].members, Edit(Add, [b, "-"], v));
  }

  lemma TextHasNoMembers(policy: Policy, doc: Json, kind: Kind, path: Path, v: Json)
    requires TextOrNull(doc) && path != []
    ensures ApplyAt(policy, doc, kind, path, v) == None
  {
  }

  lemma EditBelowText(policy: Policy, doc: Json, v: Json)
    requires Decodable(doc) && Decode(doc).annotations.Some?
    ensures ApplyAt(policy, doc, Replace, STATUS_PATH, v) == None
  {
    var p := STATUS_PATH;
    assert p[1..] == [ANNOTATIONS, DOMAIN, STATUS] && p[1..][1..] == [DOMAIN, STATUS] && p[1..][1..][1..] == [STATUS];
    var md := Field(doc, METADATA).value;
    var an := Field(md, ANNOTATIONS).value;
    BelowMember(policy, doc.members, Edit(Replace, p, v));
    BelowMember(policy, md.members, Edit(Replace, p[1..], v));
    if DOMAIN in an.members {
      BelowMember(policy, an.members, Edit(Replace, [DOMAIN, STATUS], v));
      TextHasNoMembers(policy, an.members[DOMAIN], Replace, [STATUS], v);
    } else {
      NoSuchChild(policy, an, Edit(Replace, [DOMAIN, STATUS], v));
    }
  }

  function StatusMap(): Json {
    TextMap(map[STATUS_KEY := INJECTED])
  }

  lemma ContainerStep(policy: Policy, doc: Json)
    requires Decodable(doc)
    ensures var pod := Decode(doc);
            Apply(policy, doc, ContainerOp(pod)) ==
            if IsObject(Field(doc, SPEC))
            then Some(SetIn(doc, SPEC, INIT_CONTAINERS, Arr(pod.initContainers + [SmeshProxy(pod.name)])))
            else None
  {
    var pod := Decode(doc);
    PatchPointers();
    if |pod.initContainers| == 0 {
      EditTwo(policy, doc, Add, SPEC, INIT_CONTAINERS, Arr([SmeshProxy(pod.name)]));
      assert pod.initContainers + [SmeshProxy(pod.name)] == [SmeshProxy(pod.name)];
    } else {
      EditAppend(policy, doc, SPEC, INIT_CONTAINERS, SmeshProxy(pod.name));
    }
  }

  lemma StatusStep(policy: Policy, doc: Json)
    requires Decodable(doc)
    ensures var pod := Decode(doc);
            Apply(policy, doc, StatusOp(pod.annotations)) ==
            if IsObject(Field(doc, METADATA)) && Unset(pod.annotations, STATUS_KEY)
            then Some(SetIn(doc, METADATA, ANNOTATIONS, StatusMap()))
            else None
  {
    var pod := Decode(doc);
    PatchPointers();
    if Unset(pod.annotations, STATUS_KEY) {
      EditTwo(policy, doc, Add, METADATA, ANNOTATIONS, StatusMap());
    } else {
      EditBelowText(policy, doc, Str(INJECTED));
    }
  }

  lemma ShareStep(policy: Policy, doc: Json)
    requires Decodable(doc)
    ensures Apply(policy, doc, SHARE_OP) ==
            if && IsObject(Field(doc, SPEC))
               && (policy.Lenient? || SHARE_PROCESS_NAMESPACE in Field(doc, SPEC).value.members)
            then Some(SetIn(doc, SPEC, SHARE_PROCESS_NAMESPACE, Bool(true)))
            else None
  {
    PatchPointers();
    EditTwo(policy, doc, Replace, SPEC, SHARE_PROCESS_NAMESPACE, Bool(true));
  }

  // ---- The whole patch ----

  lemma DecodeAfterContainers(doc: Json)
    requires Decodable(doc) && IsObject(Field(doc, SPEC))
    ensures var pod := Decode(doc);
            var d := SetIn(doc, SPEC, INIT_CONTAINERS, Arr(pod.initContainers + [SmeshProxy(pod.name)]));
            && Decodable(d)
            && Decode(d) == pod.(initContainers := pod.initContainers + [SmeshProxy(pod.name)])
            && Field(d, METADATA) == Field(doc, METADATA)
  {
  }

  lemma DecodeAfterStatus(doc: Json)
    requires Decodable(doc) && IsObject(Field(doc, METADATA))
    ensures var d := SetIn(doc, METADATA, ANNOTATIONS, StatusMap());
            && Decodable(d)
            && Decode(d) == Decode(doc).(annotations := Some(map[STATUS_KEY := INJECTED]))
            && Field(d, SPEC) == Field(doc, SPEC)
  {
    assert AnnotationsOf(Some(StatusMap())).value == map[STATUS_KEY := INJECTED];
  }

  lemma DecodeAfterShare(doc: Json)
    requires Decodable(doc) && IsObject(Field(doc, SPEC))
    ensures var d := SetIn(doc, SPEC, SHARE_PROCESS_NAMESPACE, Bool(true));
            Decodable(d) && Decode(d) == Decode(doc)
  {
  }

  /** When the patch is accepted. */
  ghost predicate CanInject(policy: Policy, doc: Json)
    requires Decodable(doc)
  {
    && IsObject(Field(doc, METADATA))
    && IsObject(Field(doc, SPEC))
    && Unset(Decode(doc).annotations, STATUS_KEY)
    && (policy.Lenient? || SHARE_PROCESS_NAMESPACE in Field(doc, SPEC).value.members)
  }

  /** The injected document: three members set, everything else as it was. */
  ghost function Injected(doc: Json): Json
    requires Decodable(doc) && IsObject(Field(doc, METADATA)) && IsObject(Field(doc, SPEC))
  {
    var pod := Decode(doc);
    var metadata := doc.members[METADATA].members[ANNOTATIONS := Obj(map[STATUS_KEY := Str(INJECTED)])];
    var spec := doc.members[SPEC].members[INIT_CONTAINERS := Arr(pod.initContainers + [SmeshProxy(pod.name)])]
                                         [SHARE_PROCESS_NAMESPACE := Bool(true)];
    Obj(doc.members[METADATA := Obj(metadata)][SPEC := Obj(spec)])
  }

  /**
    Exact applicability and meaning, for every pod document: the patch applies if and only if the status annotation
    is absent or empty and the final replace is permitted, and it then yields exactly the injected document.
   */
  lemma PatchMeaning(policy: Policy, doc: Json)
    requires Decodable(doc)
    ensures ApplyAll(policy, doc, PatchFor(Decode(doc))) == if CanInject(policy, doc) then Some(Injected(doc)) else None
  {
    var pod := Decode(doc);
    var patch := PatchFor(pod);
    ApplyThree(policy, doc, ContainerOp(pod), StatusOp(pod.annotations), SHARE_OP);
    ContainerStep(policy, doc);
    if IsObject(Field(doc, SPEC)) {
      var d := SetIn(doc, SPEC, INIT_CONTAINERS, Arr(pod.initContainers + [SmeshProxy(pod.name)]));
      DecodeAfterContainers(doc);
      StatusStep(policy, d);
      if IsObject(Field(doc, METADATA)) && Unset(pod.annotations, STATUS_KEY) {
        DecodeAfterStatus(d);
        ShareStep(policy, SetIn(d, METADATA, ANNOTATIONS, StatusMap()));
        InjectedInSteps(doc);
      }
    }
  }

  lemma ApplyThree(policy: Policy, doc: Json, a: Op, b: Op, c: Op)
    ensures ApplyAll(policy, doc, [a, b, c]) == Then(policy, Then(policy, Apply(policy, doc, a), b), c)
  {
    assert [a, b, c][1..] == [b, c] && [b, c][1..] == [c] && [c][1..] == [];
    match Apply(policy, doc, a) {
      case None =>
      case Some(d) =>
        match Apply(policy, d, b) {
          case None =>
          case Some(e) =>
            assert ApplyAll(policy, e, [c]) ==
                   match Apply(policy, e, c) case Some(x) => ApplyAll(policy, x, []) case None => None;
        }
    }
  }

  function Then(policy: Policy, doc: Option<Json>, op: Op): Option<Json> {
    match doc
    case Some(d) => Apply(policy, d, op)
    case None => None
  }

  lemma InjectedInSteps(doc: Json)
    requires Decodable(doc) && IsObject(Field(doc, METADATA)) && IsObject(Field(doc, SPEC))
    ensures var pod := Decode(doc);
            var d := SetIn(doc, SPEC, INIT_CONTAINERS, Arr(pod.initContainers + [SmeshProxy(pod.name)]));
            var e := SetIn(d, METADATA, ANNOTATIONS, StatusMap());
            && IsObject(Field(e, SPEC))
            && (SHARE_PROCESS_NAMESPACE in Field(e, SPEC).value.members <==>
                SHARE_PROCESS_NAMESPACE in Field(doc, SPEC).value.members)
            && SetIn(e, SPEC, SHARE_PROCESS_NAMESPACE, Bool(true)) == Injected(doc)
  {
    var pod := Decode(doc);
    var d := SetIn(doc, SPEC, INIT_CONTAINERS, Arr(pod.initContainers + [SmeshProxy(pod.name)]));
    var e := SetIn(d, METADATA, ANNOTATIONS, StatusMap());
    assert StatusMap() == Obj(map[STATUS_KEY := Str(INJECTED)]);
    assert SetIn(e, SPEC, SHARE_PROCESS_NAMESPACE, Bool(true)).members == Injected(doc).members;
  }

  /** What the injected document holds at the three locations, and that every other location is untouched. */
  lemma InjectedLocations(doc: Json, q: Path)
    requires Decodable(doc) && IsObject(Field(doc, METADATA)) && IsObject(Field(doc, SPEC))
    ensures Get(Injected(doc), CONTAINERS_PATH) ==
            Some(Arr(Decode(doc).initContainers + [SmeshProxy(Decode(doc).name)]))
    ensures Get(Injected(doc), ANNOTATIONS_PATH) == Some(Obj(map[STATUS_KEY := Str(INJECTED)]))
    ensures Get(Injected(doc), SHARE_PATH) == Some(Bool(true))
    ensures Incomparable(q, CONTAINERS_PATH) && Incomparable(q, ANNOTATIONS_PATH) && Incomparable(q, SHARE_PATH) ==>
              Get(Injected(doc), q) == Get(doc, q)
  {
    GetTwo(Injected(doc), SPEC, INIT_CONTAINERS);
    GetTwo(Injected(doc), METADATA, ANNOTATIONS);
    GetTwo(Injected(doc), SPEC, SHARE_PROCESS_NAMESPACE);
    if Incomparable(q, CONTAINERS_PATH) && Incomparable(q, ANNOTATIONS_PATH) && Incomparable(q, SHARE_PATH) {
      InjectedElsewhere(doc, q);
    }
  }

  // A location below a member that two objects agree on.
  lemma SameMember(m: map<string, Json>, n: map<string, Json>, q: Path)
    requires q != [] && (q[0] in m <==> q[0] in n) && (q[0] in m ==> m[q[0]] == n[q[0]])
    ensures Get(Obj(m), q) == Get(Obj(n), q)
  {
  }

  lemma SameGrandchild(m: map<string, Json>, n: map<string, Json>, q: Path)
    requires |q| > 1 && q[0] in m && q[0] in n && m[q[0]].Obj? && n[q[0]].Obj?
    requires var x, y := m[q[0]].members, n[q[0]].members;
             (q[1] in x <==> q[1] in y) && (q[1] in x ==> x[q[1]] == y[q[1]])
    ensures Get(Obj(m), q) == Get(Obj(n), q)
  {
    SameMember(m[q[0]].members, n[q[0]].members, q[1..]);
  }

  lemma InjectedElsewhere(doc: Json, q: Path)
    requires Decodable(doc) && IsObject(Field(doc, METADATA)) && IsObject(Field(doc, SPEC))
    requires Incomparable(q, CONTAINERS_PATH) && Incomparable(q, ANNOTATIONS_PATH) && Incomparable(q, SHARE_PATH)
    ensures Get(Injected(doc), q) == Get(doc, q)
  {
    if q[0] == METADATA {
      LongerThanOne(q, ANNOTATIONS_PATH);
      SameGrandchild(doc.members, Injected(doc).members, q);
    } else if q[0] == SPEC {
      LongerThanOne(q, CONTAINERS_PATH);
      LongerThanOne(q, SHARE_PATH);
      SameGrandchild(doc.members, Injected(doc).members, q);
    } else {
      SameMember(doc.members, Injected(doc).members, q);
    }
  }

  lemma LongerThanOne(q: Path, p: Path)
    requires |p| == 2 && Incomparable(q, p) && q[0] == p[0]
    ensures |q| > 1 && q[1] != p[1]
  {
  }
}
