/**
  Repeated admissions of one pod, the order of the patch operations, and the annotation loop for any set of
  annotations.
 */
module AdmissionRuns {
  import opened Wrappers
  import opened Text
  import opened JsonPatch
  import opened Webhook
  import opened AdmissionProofs

  // ---- Repeated admission ----

  /** A later life of a pod document: it is admitted again, or somebody else replaces it. */
  datatype Event = Admit | EditTo(doc: Json)

  /** The API server applies the returned patch; a patch that does not apply rejects the request. */
  function AfterAdmission(policy: Policy, doc: Json): Json {
    match Review(doc)
    case AllowedWithPatch(patch) => (match ApplyAll(policy, doc, patch) case Some(d) => d case None => doc)
    case _ => doc
  }

  function AfterEvent(policy: Policy, doc: Json, e: Event): Json {
    match e
    case Admit => AfterAdmission(policy, doc)
    case EditTo(d) => d
  }

  /** The edit keeps the namespace, the status annotation and the init containers. */
  ghost predicate KeepsMarks(doc: Json, d: Json) {
    && Decodable(doc) && Decodable(d)
    && Decode(d).ns == Decode(doc).ns
    && Lookup(Decode(d).annotations, STATUS_KEY) == Lookup(Decode(doc).annotations, STATUS_KEY)
    && Decode(d).initContainers == Decode(doc).initContainers
  }

  ghost predicate Leads(policy: Policy, doc: Json, es: seq<Event>, last: Json)
    decreases es
  {
    if es == [] then doc == last
    else
      && (es[0].EditTo? ==> KeepsMarks(doc, es[0].doc))
      && Leads(policy, AfterEvent(policy, doc, es[0]), es[1..], last)
  }

  ghost predicate Marked(doc: Json) {
    Decodable(doc) && Lookup(Decode(doc).annotations, STATUS_KEY) == INJECTED
  }

  lemma InjectedIsLower()
    ensures Lower(INJECTED) == INJECTED
  {
  }

  lemma MarkedIsLeftAlone(policy: Policy, doc: Json)
    requires Marked(doc)
    ensures Review(doc) == Allowed && AfterAdmission(policy, doc) == doc
  {
    InjectedIsLower();
  }

  lemma {:induction false} MarkedStaysMarked(policy: Policy, doc: Json, es: seq<Event>, last: Json)
    requires Marked(doc) && Leads(policy, doc, es, last)
    ensures Marked(last) && Decode(last).initContainers == Decode(doc).initContainers
    decreases es
  {
    if es != [] {
      if es[0].Admit? {
        MarkedIsLeftAlone(policy, doc);
      }
      MarkedStaysMarked(policy, AfterEvent(policy, doc, es[0]), es[1..], last);
    }
  }

  /**
    One proxy for life: however often an injected pod is admitted again, between edits that keep its namespace,
    status annotation and init containers, it has exactly one init container more than it came with.
   */
  lemma AdmissionIsIdempotent(policy: Policy, doc: Json, es: seq<Event>, last: Json)
    requires Review(doc).AllowedWithPatch? && CanInject(policy, doc)
    requires Leads(policy, AfterAdmission(policy, doc), es, last)
    ensures Decodable(last) && Review(last) == Allowed
    ensures Decode(last).initContainers == Decode(doc).initContainers + [SmeshProxy(Decode(doc).name)]
  {
    PatchMeaning(policy, doc);
    DecodeInjected(doc);
    MarkedStaysMarked(policy, AfterAdmission(policy, doc), es, last);
    MarkedIsLeftAlone(policy, last);
  }

  lemma DecodeInjected(doc: Json)
    requires Decodable(doc) && IsObject(Field(doc, METADATA)) && IsObject(Field(doc, SPEC))
    ensures Decodable(Injected(doc)) && Marked(Injected(doc))
    ensures Decode(Injected(doc)).initContainers == Decode(doc).initContainers + [SmeshProxy(Decode(doc).name)]
  {
    var pod := Decode(doc);
    var d := SetIn(doc, SPEC, INIT_CONTAINERS, Arr(pod.initContainers + [SmeshProxy(pod.name)]));
    DecodeAfterContainers(doc);
    DecodeAfterStatus(d);
    DecodeAfterShare(SetIn(d, METADATA, ANNOTATIONS, StatusMap()));
    InjectedInSteps(doc);
  }

  // ---- The order of the operations ----

  /** No array stands where the three pointers part: at the root and below spec. */
  ghost predicate NoArrays(doc: Json) {
    !doc.Arr? && match Child(doc, SPEC) case Some(d) => !d.Arr? case None => true
  }

  /** The paths part at the root, or below spec. */
  ghost predicate PartEarly(p: Path, q: Path) {
    |p| > 1 && |q| > 1 && (p[0] != q[0] || (p[0] == SPEC && p[1] != q[1]))
  }

  lemma PartEarlyIsIndependent(policy: Policy, doc: Json, e: Edit, f: Edit)
    requires NoArrays(doc) && PartEarly(e.path, f.path)
    ensures Incomparable(e.path, f.path) && !Disturbs(policy, doc, e, f)
  {
    if e.path[0] != f.path[0] {
      DifferentHeads(e.path, f.path);
    } else {
      DifferentHeads(e.path[1..], f.path[1..]);
    }
  }

  /** The operation edits a location at least two levels down. */
  ghost predicate Edits(op: Op, path: Path) {
    ParsePointer(op.path) == Some(path) && |path| > 1
  }

  lemma OpsCommute(policy: Policy, doc: Json, a: Op, p: Path, b: Op, q: Path)
    requires NoArrays(doc) && Edits(a, p) && Edits(b, q) && PartEarly(p, q)
    ensures Then(policy, Apply(policy, doc, a), b) == Then(policy, Apply(policy, doc, b), a)
  {
    var e, f := Edit(a.kind, p, a.value), Edit(b.kind, q, b.value);
    PartEarlyIsIndependent(policy, doc, e, f);
    PartEarlyIsIndependent(policy, doc, f, e);
    EditsCommute(policy, doc, e, f);
  }

  lemma EditKeepsNoArrays(policy: Policy, doc: Json, a: Op, p: Path)
    requires NoArrays(doc) && Edits(a, p)
    ensures var r := Apply(policy, doc, a); r.Some? ==> NoArrays(r.value)
  {
    if doc.Obj? && p[0] in doc.members {
      BelowMember(policy, doc.members, Edit(a.kind, p, a.value));
      var d := doc.members[p[0]];
      if !d.Arr? {
        EditKeepsKind(policy, d, a.kind, p[1..], a.value);
      }
    } else {
      NoSuchChild(policy, doc, Edit(a.kind, p, a.value));
    }
  }

  lemma EditKeepsKind(policy: Policy, doc: Json, kind: Kind, p: Path, v: Json)
    requires p != [] && !doc.Arr?
    ensures var r := ApplyAt(policy, doc, kind, p, v); r.Some? ==> r.value.Obj?
  {
  }

  // Exchanging the last two, or the first two, of three independent operations.
  lemma SwapLast(policy: Policy, doc: Json, a: Op, p: Path, b: Op, q: Path, c: Op, r: Path)
    requires NoArrays(doc) && Edits(a, p) && Edits(b, q) && Edits(c, r) && PartEarly(q, r)
    ensures ApplyAll(policy, doc, [a, b, c]) == ApplyAll(policy, doc, [a, c, b])
  {
    ApplyThree(policy, doc, a, b, c);
    ApplyThree(policy, doc, a, c, b);
    EditKeepsNoArrays(policy, doc, a, p);
    match Apply(policy, doc, a) {
      case Some(d) => OpsCommute(policy, d, b, q, c, r);
      case None =>
    }
  }

  lemma SwapFirst(policy: Policy, doc: Json, a: Op, p: Path, b: Op, q: Path, c: Op)
    requires NoArrays(doc) && Edits(a, p) && Edits(b, q) && PartEarly(p, q)
    ensures ApplyAll(policy, doc, [a, b, c]) == ApplyAll(policy, doc, [b, a, c])
  {
    ApplyThree(policy, doc, a, b, c);
    ApplyThree(policy, doc, b, a, c);
    OpsCommute(policy, doc, a, p, b, q);
  }

  function ContainerPath(pod: Pod): Path {
    if |pod.initContainers| == 0 then CONTAINERS_PATH else APPEND_PATH
  }

  function AnnotationPath(pod: Pod): Path {
    if Unset(pod.annotations, STATUS_KEY) then ANNOTATIONS_PATH else STATUS_PATH
  }

  /**
    The container, annotation and process-namespace operations give the same document, or the same failure, in all
    six orders.
   */
  lemma PatchOrderIsIrrelevant(policy: Policy, doc: Json)
    requires Decodable(doc)
    ensures var pod := Decode(doc);
            var a, b, c := ContainerOp(pod), StatusOp(pod.annotations), SHARE_OP;
            ApplyAll(policy, doc, [a, b, c])
            == ApplyAll(policy, doc, [a, c, b])
            == ApplyAll(policy, doc, [b, a, c])
            == ApplyAll(policy, doc, [b, c, a])
            == ApplyAll(policy, doc, [c, a, b])
            == ApplyAll(policy, doc, [c, b, a])
  {
    var pod := Decode(doc);
    var a, b, c := ContainerOp(pod), StatusOp(pod.annotations), SHARE_OP;
    var p, q, r := ContainerPath(pod), AnnotationPath(pod), SHARE_PATH;
    PatchPointers();
    assert Edits(a, p) && Edits(b, q) && Edits(c, r);
    assert PartEarly(p, q) && PartEarly(q, r) && PartEarly(p, r);
    ThreeOrders(policy, doc, a, p, b, q, c, r);
  }

  lemma ThreeOrders(policy: Policy, doc: Json, a: Op, p: Path, b: Op, q: Path, c: Op, r: Path)
    requires NoArrays(doc) && Edits(a, p) && Edits(b, q) && Edits(c, r)
    requires PartEarly(p, q) && PartEarly(q, r) && PartEarly(p, r)
    ensures ApplyAll(policy, doc, [a, b, c])
            == ApplyAll(policy, doc, [a, c, b])
            == ApplyAll(policy, doc, [b, a, c])
            == ApplyAll(policy, doc, [b, c, a])
            == ApplyAll(policy, doc, [c, a, b])
            == ApplyAll(policy, doc, [c, b, a])
  {
    SwapLast(policy, doc, a, p, b, q, c, r);
    SwapFirst(policy, doc, a, p, b, q, c);
    SwapLast(policy, doc, b, q, a, p, c, r);
    SwapFirst(policy, doc, a, p, c, r, b);
    SwapFirst(policy, doc, b, q, c, r, a);
  }

  // ---- The annotation loop ----

  /**
    Whenever the pod lacks one of the keys and the loop's operations all apply, what remains is a map with the one
    key that was visited last: every other annotation, old or added, is gone.
   */
  lemma OnlyLastAnnotationRemains(policy: Policy, doc: Json, target: Option<Annotations>, added: Annotations,
                                  order: seq<string>, patch: seq<Op>)
    requires Enumerates(order, added) && IsAnnotationPatch(target, added, order, patch)
    requires FirstUnset(target, order) < |order|
    ensures var r := ApplyAll(policy, doc, patch);
            var last := order[|order| - 1];
            r.Some? ==> Get(r.value, ANNOTATIONS_PATH) == Some(Obj(map[last := Str(added[last])]))
  {
    var last := order[|order| - 1];
    var front := patch[..|patch| - 1];
    EndsInAddWhole(target, added, order, patch);
    EndsWithWholeMap(policy, doc, front, last, added[last]);
  }

  lemma EndsInAddWhole(target: Option<Annotations>, added: Annotations, order: seq<string>, patch: seq<Op>)
    requires Enumerates(order, added) && IsAnnotationPatch(target, added, order, patch)
    requires FirstUnset(target, order) < |order|
    ensures patch != []
    ensures var last := order[|order| - 1]; patch == patch[..|patch| - 1] + [AddWhole(last, added[last])]
  {
    LastApart(patch);
  }

  lemma LastApart<T>(s: seq<T>)
    requires s != []
    ensures s == s[..|s| - 1] + [s[|s| - 1]]
  {
  }

  lemma EndsWithWholeMap(policy: Policy, doc: Json, front: seq<Op>, key: string, value: string)
    ensures var r := ApplyAll(policy, doc, front + [AddWhole(key, value)]);
            r.Some? ==> Get(r.value, ANNOTATIONS_PATH) == Some(Obj(map[key := Str(value)]))
  {
    var op := AddWhole(key, value);
    ApplyAllConcat(policy, doc, front, [op]);
    match ApplyAll(policy, doc, front) {
      case None =>
      case Some(d) =>
        ApplyOne(policy, d, op);
        AddWholeSets(policy, d, key, value);
    }
  }

  lemma ApplyOne(policy: Policy, doc: Json, op: Op)
    ensures ApplyAll(policy, doc, [op]) == Apply(policy, doc, op)
  {
    assert [op][1..] == [];
    match Apply(policy, doc, op) {
      case Some(d) => assert ApplyAll(policy, d, []) == Some(d);
      case None =>
    }
  }

  lemma AddWholeSets(policy: Policy, doc: Json, key: string, value: string)
    ensures var r := Apply(policy, doc, AddWhole(key, value));
            r.Some? ==> Get(r.value, ANNOTATIONS_PATH) == Some(Obj(map[key := Str(value)]))
  {
    PatchPointers();
    AddTwoSets(policy, doc, METADATA, ANNOTATIONS, TextMap(map[key := value]));
    assert TextMap(map[key := value]) == Obj(map[key := Str(value)]);
  }

  lemma AddTwoSets(policy: Policy, doc: Json, a: string, b: string, v: Json)
    requires ArrayIndex(a).None? && ArrayIndex(b).None? && a != "-" && b != "-"
    ensures var r := ApplyAt(policy, doc, Add, [a, b], v); r.Some? ==> Get(r.value, [a, b]) == Some(v)
  {
    assert [a, b][1..] == [b] && [b][1..] == [];
    if doc.Obj? && a in doc.members {
      BelowMember(policy, doc.members, Edit(Add, [a, b], v));
      var r := ApplyAt(policy, doc, Add, [a, b], v);
      if r.Some? {
        GetTwo(r.value, a, b);
      }
    } else {
      NoSuchChild(policy, doc, Edit(Add, [a, b], v));
    }
  }

  // ---- Which annotations a replace can name ----

  lemma {:induction false} SplitAtSeparator(s: string)
    requires '/' in s
    ensures |Split(s, '/')| > 1
  {
    if s[0] != '/' {
      SplitAtSeparator(s[1..]);
    }
  }

  lemma {:induction false} UnescapeShortens(s: string)
    ensures '~' !in s ==> Unescape(s) == Some(s)
    ensures Unescape(s).Some? ==> |Unescape(s).value| <= |s|
    ensures Unescape(s).Some? && '~' in s ==> |Unescape(s).value| < |s|
  {
    if s != [] {
      if s[0] != '~' {
        UnescapeShortens(s[1..]);
        assert [s[0]] + s[1..] == s;
      } else if |s| >= 2 {
        UnescapeShortens(s[2..]);
      }
    }
  }

  lemma SingleTokenIffPlain(key: string)
    ensures UnescapeAll(Split(key, '/')) == Some([key]) <==> Plain(key)
  {
    if '/' in key {
      SplitAtSeparator(key);
    } else {
      SplitNoSeparator(key, '/');
      UnescapeShortens(key);
      assert [key][1..] == [] && UnescapeAll([]) == Some([]);
      match Unescape(key) {
        case Some(t) =>
          assert [t] + [] == [t];
          assert [t] == [key] ==> [t][0] == [key][0];
        case None =>
      }
    }
  }

  /** The pointer the loop builds for a key names that annotation if and only if the key has neither slash nor tilde. */
  lemma AnnotationPointerNamesKey(key: string)
    ensures ParsePointer(ANNOTATIONS_POINTER + "/" + key) == Some(ANNOTATIONS_PATH + [key]) <==> Plain(key)
  {
    SingleTokenIffPlain(key);
    NamesArePlain();
    PrefixedPointer(METADATA, ANNOTATIONS, key);
    var rest := UnescapeAll(Split(key, '/'));
    if rest.Some? {
      SameTail(ANNOTATIONS_PATH, rest.value, [key]);
    }
  }

  lemma SameTail(p: Path, q: Path, r: Path)
    ensures p + q == p + r <==> q == r
  {
    assert (p + q)[|p|..] == q && (p + r)[|p|..] == r;
  }

  lemma PlainField(t: string, tail: string)
    requires Plain(t)
    ensures UnescapeAll(Split(t + ['/'] + tail, '/')) ==
            match UnescapeAll(Split(tail, '/')) case Some(ts) => Some([t] + ts) case None => None
  {
    UnescapeShortens(t);
    SplitFirst(t, tail, '/');
    assert ([t] + Split(tail, '/'))[1..] == Split(tail, '/');
  }

  lemma PrefixedPointer(a: string, b: string, key: string)
    requires Plain(a) && Plain(b)
    ensures ParsePointer("/" + a + "/" + b + "/" + key) ==
            match UnescapeAll(Split(key, '/')) case Some(ts) => Some([a, b] + ts) case None => None
  {
    JoinPrefix(a, b, key);
    TwoFieldsThen("/" + a + "/" + b + "/" + key, a, b, key);
  }

  lemma TwoFieldsThen(p: string, a: string, b: string, key: string)
    requires Plain(a) && Plain(b)
    requires p != [] && p[0] == '/' && p[1..] == a + ['/'] + (b + ['/'] + key)
    ensures ParsePointer(p) == match UnescapeAll(Split(key, '/')) case Some(ts) => Some([a, b] + ts) case None => None
  {
    PlainField(b, key);
    PlainField(a, b + ['/'] + key);
    match UnescapeAll(Split(key, '/')) {
      case Some(ts) => assert [a] + ([b] + ts) == [a, b] + ts;
      case None =>
    }
  }

  lemma JoinPrefix(a: string, b: string, key: string)
    ensures var p := "/" + a + "/" + b + "/" + key;
            p != [] && p[0] == '/' && p[1..] == a + ['/'] + (b + ['/'] + key)
  {
  }

  // ---- When annotations are lost ----

  lemma {:induction false} ReplaceMovesNothing(doc: Json, p: Path, q: Path)
    ensures !Moves(doc, Replace, p, q)
    decreases |p|
  {
    if p != [] && q != [] && p[0] == q[0] {
      match Child(doc, p[0]) {
        case Some(d) => ReplaceMovesNothing(d, p[1..], q[1..]);
        case None =>
      }
    }
  }

  // Nothing can be edited below a text.
  lemma {:induction false} BelowTextFails(policy: Policy, doc: Json, kind: Kind, p: Path, v: Json, q: Path)
    requires |q| < |p| && q <= p
    requires Get(doc, q).Some? && TextOrNull(Get(doc, q).value)
    ensures ApplyAt(policy, doc, kind, p, v) == None
    decreases |q|
  {
    if q == [] {
      TextHasNoMembers(policy, doc, kind, p, v);
    } else {
      assert q[0] == p[0] && q[1..] <= p[1..];
      BelowTextFails(policy, Child(doc, q[0]).value, kind, p[1..], v, q[1..]);
      if doc.Obj? {
        BelowMember(policy, doc.members, Edit(kind, p, v));
      } else {
        BelowElement(policy, doc.elems, Edit(kind, p, v));
      }
    }
  }

  lemma ReplaceKeepsText(policy: Policy, doc: Json, op: Op, q: Path)
    requires op.kind.Replace?
    requires match ParsePointer(op.path) case Some(p) => p != q && |p| >= |q| case None => true
    requires Get(doc, q).Some? && TextOrNull(Get(doc, q).value)
    ensures var r := Apply(policy, doc, op); r.Some? ==> Get(r.value, q) == Get(doc, q)
  {
    if ParsePointer(op.path).Some? {
      var p := ParsePointer(op.path).value;
      ReplaceMovesNothing(doc, p, q);
      if q <= p {
        BelowTextFails(policy, doc, Replace, p, op.value, q);
      } else {
        EditKeepsOthers(policy, doc, Replace, p, op.value, q);
      }
    }
  }

  lemma {:induction false} ReplacesKeepText(policy: Policy, doc: Json, ops: seq<Op>, q: Path)
    requires forall i :: 0 <= i < |ops| ==>
               && ops[i].kind.Replace?
               && match ParsePointer(ops[i].path) case Some(p) => p != q && |p| >= |q| case None => true
    requires Get(doc, q).Some? && TextOrNull(Get(doc, q).value)
    ensures var r := ApplyAll(policy, doc, ops); r.Some? ==> Get(r.value, q) == Get(doc, q)
    decreases ops
  {
    if ops != [] {
      ReplaceKeepsText(policy, doc, ops[0], q);
      match Apply(policy, doc, ops[0]) {
        case Some(d) => ReplacesKeepText(policy, d, ops[1..], q);
        case None =>
      }
    }
  }

  function AnnotationAt(key: string): Path {
    [METADATA, ANNOTATIONS, key]
  }

  lemma AnnotationIsText(doc: Json, key: string)
    requires Decodable(doc) && Decode(doc).annotations.Some? && key in Decode(doc).annotations.value
    ensures Get(doc, AnnotationAt(key)).Some? && TextOrNull(Get(doc, AnnotationAt(key)).value)
  {
    GetThree(doc, METADATA, ANNOTATIONS, key);
  }

  lemma ReplacePointerIsDeep(key: string, value: string)
    ensures match ParsePointer(ReplaceOne(key, value).path) case Some(p) => |p| >= 3 case None => true
  {
    NamesArePlain();
    PrefixedPointer(METADATA, ANNOTATIONS, key);
  }

  /**
    Exactly when an annotation is lost. For any pod document and any annotations to set, when all the loop's
    operations apply, an annotation that none of them names keeps its value if and only if the pod had all the keys.
   */
  lemma AnnotationKeptIff(policy: Policy, doc: Json, added: Annotations, order: seq<string>, patch: seq<Op>,
                          other: string)
    requires Decodable(doc) && Enumerates(order, added)
    requires IsAnnotationPatch(Decode(doc).annotations, added, order, patch)
    requires Decode(doc).annotations.Some? && other in Decode(doc).annotations.value
    requires other !in added
    requires forall i :: 0 <= i < |patch| ==> ParsePointer(patch[i].path) != Some(AnnotationAt(other))
    requires ApplyAll(policy, doc, patch).Some?
    ensures var r := ApplyAll(policy, doc, patch).value;
            Get(r, AnnotationAt(other)) == Get(doc, AnnotationAt(other)) <==>
              FirstUnset(Decode(doc).annotations, order) == |order|
  {
    var r := ApplyAll(policy, doc, patch).value;
    AnnotationIsText(doc, other);
    if FirstUnset(Decode(doc).annotations, order) == |order| {
      forall i | 0 <= i < |patch|
        ensures match ParsePointer(patch[i].path) case Some(p) => |p| >= 3 case None => true
      {
        ReplacePointerIsDeep(order[i], added[order[i]]);
      }
      ReplacesKeepText(policy, doc, patch, AnnotationAt(other));
    } else {
      OnlyLastAnnotationRemains(policy, doc, Decode(doc).annotations, added, order, patch);
      GetTwo(r, METADATA, ANNOTATIONS);
      GetThree(r, METADATA, ANNOTATIONS, other);
    }
  }

  // ---- When all the keys are there ----

  function ReplaceEach(added: Annotations, order: seq<string>): (ops: seq<Op>)
    requires forall k :: k in order ==> k in added
  {
    seq(|order|, i requires 0 <= i < |order| => ReplaceOne(order[i], added[order[i]]))
  }

  function Texts(added: Annotations): map<string, Json> {
    map k | k in added :: Str(added[k])
  }

  function WithTexts(m: map<string, Json>, added: Annotations, order: seq<string>): (n: map<string, Json>)
    requires forall k :: k in order ==> k in added
    ensures forall k :: k in n <==> k in m || k in order
  {
    if order == [] then m
    else WithTexts(m, added, order[..|order| - 1])[order[|order| - 1] := Str(added[order[|order| - 1]])]
  }

  lemma {:induction false} WithTextsMeaning(m: map<string, Json>, added: Annotations, order: seq<string>, k: string)
    requires forall k :: k in order ==> k in added
    requires k in m || k in order
    ensures WithTexts(m, added, order)[k] == if k in order then Str(added[k]) else m[k]
  {
    if order != [] {
      var n := |order| - 1;
      assert order == order[..n] + [order[n]];
      if k != order[n] {
        WithTextsMeaning(m, added, order[..n], k);
      }
    }
  }

  lemma ReplaceThree(policy: Policy, doc: Json, a: string, b: string, c: string, v: Json)
    requires IsObject(Field(doc, a)) && IsObject(Field(Field(doc, a).value, b))
    requires c in Field(Field(doc, a).value, b).value.members
    ensures ApplyAt(policy, doc, Replace, [a, b, c], v) ==
            Some(SetIn(doc, a, b, Obj(Field(Field(doc, a).value, b).value.members[c := v])))
  {
    assert [a, b, c][1..] == [b, c] && [b, c][1..] == [c] && [c][1..] == [];
    BelowMember(policy, doc.members, Edit(Replace, [a, b, c], v));
    BelowMember(policy, doc.members[a].members, Edit(Replace, [b, c], v));
  }

  lemma ReplaceAnnotation(policy: Policy, doc: Json, m: map<string, Json>, key: string, value: string)
    requires IsObject(Field(doc, METADATA)) && Field(Field(doc, METADATA).value, ANNOTATIONS) == Some(Obj(m))
    requires key in m && Plain(key)
    ensures Apply(policy, doc, ReplaceOne(key, value)) ==
            Some(SetIn(doc, METADATA, ANNOTATIONS, Obj(m[key := Str(value)])))
  {
    AnnotationPointerNamesKey(key);
    assert ANNOTATIONS_PATH + [key] == AnnotationAt(key);
    ReplaceThree(policy, doc, METADATA, ANNOTATIONS, key, Str(value));
  }

  lemma {:induction false} ReplacesApply(policy: Policy, doc: Json, m: map<string, Json>, added: Annotations,
                                         order: seq<string>)
    requires IsObject(Field(doc, METADATA)) && Field(Field(doc, METADATA).value, ANNOTATIONS) == Some(Obj(m))
    requires forall k :: k in order ==> k in added && k in m && Plain(k)
    ensures ApplyAll(policy, doc, ReplaceEach(added, order)) ==
            Some(SetIn(doc, METADATA, ANNOTATIONS, Obj(WithTexts(m, added, order))))
  {
    if order == [] {
      assert doc.members[METADATA].members[ANNOTATIONS := Obj(m)] == doc.members[METADATA].members;
      assert doc.members[METADATA := Obj(doc.members[METADATA].members)] == doc.members;
    } else {
      var n := |order| - 1;
      var key, value, before := order[n], added[order[n]], WithTexts(m, added, order[..n]);
      ReplacesApply(policy, doc, m, added, order[..n]);
      assert ReplaceEach(added, order) == ReplaceEach(added, order[..n]) + [ReplaceOne(key, value)];
      ApplyAllConcat(policy, doc, ReplaceEach(added, order[..n]), [ReplaceOne(key, value)]);
      ReplaceOneMore(policy, doc, before, key, value);
    }
  }

  lemma ReplaceOneMore(policy: Policy, doc: Json, before: map<string, Json>, key: string, value: string)
    requires IsObject(Field(doc, METADATA)) && key in before && Plain(key)
    ensures ApplyAll(policy, SetIn(doc, METADATA, ANNOTATIONS, Obj(before)), [ReplaceOne(key, value)]) ==
            Some(SetIn(doc, METADATA, ANNOTATIONS, Obj(before[key := Str(value)])))
  {
    var d := SetIn(doc, METADATA, ANNOTATIONS, Obj(before));
    ApplyOne(policy, d, ReplaceOne(key, value));
    ReplaceAnnotation(policy, d, before, key, value);
    SetTwice(doc, METADATA, ANNOTATIONS, Obj(before), Obj(before[key := Str(value)]));
  }

  lemma SetTwice(doc: Json, a: string, b: string, v: Json, w: Json)
    requires IsObject(Field(doc, a))
    ensures SetIn(SetIn(doc, a, b, v), a, b, w) == SetIn(doc, a, b, w)
  {
    var m := doc.members[a].members;
    assert m[b := v][b := w] == m[b := w];
    assert doc.members[a := Obj(m[b := v])][a := Obj(m[b := w])] == doc.members[a := Obj(m[b := w])];
  }

  /**
    When the pod has all the keys, and none needs escaping, the loop's operations apply and set exactly those
    annotations: all others, and the rest of the document, are as they were.
   */
  lemma PresentAnnotationsAreReplaced(policy: Policy, doc: Json, added: Annotations, order: seq<string>, patch: seq<Op>)
    requires Decodable(doc) && Enumerates(order, added) && order != []
    requires IsAnnotationPatch(Decode(doc).annotations, added, order, patch)
    requires FirstUnset(Decode(doc).annotations, order) == |order|
    requires forall k :: k in added ==> Plain(k)
    ensures SubField(doc, METADATA, ANNOTATIONS).Some? && SubField(doc, METADATA, ANNOTATIONS).value.Obj?
    ensures var m := SubField(doc, METADATA, ANNOTATIONS).value.members;
            ApplyAll(policy, doc, patch) ==
            Some(SetIn(doc, METADATA, ANNOTATIONS, Obj(m + Texts(added))))
  {
    KeysArePresent(doc, order);
    assert patch == ReplaceEach(added, order);
    var m := SubField(doc, METADATA, ANNOTATIONS).value.members;
    ReplacesApply(policy, doc, m, added, order);
    WithTextsIsUnion(m, added, order);
  }

  lemma KeysArePresent(doc: Json, order: seq<string>)
    requires Decodable(doc) && order != [] && FirstUnset(Decode(doc).annotations, order) == |order|
    ensures var a := SubField(doc, METADATA, ANNOTATIONS);
            a.Some? && a.value.Obj? && forall k :: k in order ==> k in a.value.members
  {
    SetKeyIsPresent(doc, order[0]);
    forall k | k in order
      ensures k in SubField(doc, METADATA, ANNOTATIONS).value.members
    {
      var i :| 0 <= i < |order| && order[i] == k;
      SetKeyIsPresent(doc, order[i]);
    }
  }

  lemma SetKeyIsPresent(doc: Json, key: string)
    requires Decodable(doc) && !Unset(Decode(doc).annotations, key)
    ensures var a := SubField(doc, METADATA, ANNOTATIONS); a.Some? && a.value.Obj? && key in a.value.members
  {
  }

  lemma WithTextsIsUnion(m: map<string, Json>, added: Annotations, order: seq<string>)
    requires forall k :: k in added <==> k in order
    ensures WithTexts(m, added, order) == m + Texts(added)
  {
    var w := WithTexts(m, added, order);
    forall k | k in w
      ensures w[k] == (m + Texts(added))[k]
    {
      WithTextsMeaning(m, added, order, k);
    }
    SameMap(w, m + Texts(added));
  }

  lemma SameMap(a: map<string, Json>, b: map<string, Json>)
    requires forall k :: k in a <==> k in b
    requires forall k :: k in a ==> a[k] == b[k]
    ensures a == b
  {
  }
}
