/**
  JSON documents, JSON Pointer (RFC 6901) and the add and replace operations of JSON Patch (RFC 6902).
 */
module JsonPatch {
  import opened Wrappers
  import opened Text

  datatype Json =
    | Null
    | Bool(b: bool)
    | Num(n: int)
    | Str(s: string)
    | Arr(elems: seq<Json>)
    | Obj(members: map<string, Json>)

  type Path = seq<string>

  // ---- Pointers ----

  /** Section 4 of RFC 6901: ~1 stands for a slash and ~0 for a tilde; nothing else may follow a tilde. */
  function Unescape(s: string): (r: Option<string>) {
    if s == [] then Some([])
    else if s[0] != '~' then
      match Unescape(s[1..])
      case Some(t) => Some([s[0]] + t)
      case None => None
    else if |s| >= 2 && (s[1] == '0' || s[1] == '1') then
      match Unescape(s[2..])
      case Some(t) => Some([if s[1] == '0' then '~' else '/'] + t)
      case None => None
    else None
  }

  function UnescapeAll(fields: seq<string>): (r: Option<Path>)
    ensures r.Some? ==> |r.value| == |fields|
  {
    if fields == [] then Some([])
    else
      match (Unescape(fields[0]), UnescapeAll(fields[1..]))
      case (Some(t), Some(ts)) => Some([t] + ts)
      case _ => None
  }

  /** Section 3 of RFC 6901: the empty pointer, or reference tokens each preceded by a slash. */
  function ParsePointer(p: string): (r: Option<Path>) {
    if p == [] then Some([])
    else if p[0] != '/' then None
    else UnescapeAll(Split(p[1..], '/'))
  }

  function Escape(t: string): (s: string) {
    if t == [] then []
    else (if t[0] == '~' then "~0" else if t[0] == '/' then "~1" else [t[0]]) + Escape(t[1..])
  }

  /** The pointer to a location. */
  function Pointer(path: Path): (p: string) {
    if path == [] then [] else "/" + Escape(path[0]) + Pointer(path[1..])
  }

  lemma {:induction false} EscapeRoundTrip(t: string)
    ensures Unescape(Escape(t)) == Some(t)
    ensures '/' !in Escape(t)
  {
    if t != [] {
      EscapeRoundTrip(t[1..]);
      var e, rest := Escape(t), Escape(t[1..]);
      if t[0] == '~' || t[0] == '/' {
        assert e[2..] == rest;
      } else {
        assert e[1..] == rest;
      }
      assert [t[0]] + t[1..] == t;
    }
  }

  lemma {:induction false} PointerFields(path: Path)
    requires path != []
    ensures Pointer(path) != [] && Pointer(path)[0] == '/'
    ensures UnescapeAll(Split(Pointer(path)[1..], '/')) == Some(path)
  {
    var t, rest := path[0], path[1..];
    assert path == [t] + rest;
    if rest == [] {
      LastField(t);
      assert Pointer(path) == "/" + Escape(t) + [];
      assert Pointer(path)[1..] == Escape(t);
    } else {
      PointerFields(rest);
      OneMoreField(t, Pointer(rest)[1..], rest);
      JoinFields(Escape(t), Pointer(rest));
    }
  }

  lemma JoinFields(e: string, tail: string)
    requires tail != [] && tail[0] == '/'
    ensures ("/" + e + tail)[1..] == e + ['/'] + tail[1..]
  {
  }

  lemma LastField(t: string)
    ensures UnescapeAll(Split(Escape(t), '/')) == Some([t])
  {
    EscapeRoundTrip(t);
    SplitNoSeparator(Escape(t), '/');
    assert [Escape(t)][1..] == [] && UnescapeAll([]) == Some([]);
    assert [t] + [] == [t];
  }

  lemma OneMoreField(t: string, tail: string, path: Path)
    requires UnescapeAll(Split(tail, '/')) == Some(path)
    ensures UnescapeAll(Split(Escape(t) + ['/'] + tail, '/')) == Some([t] + path)
  {
    EscapeRoundTrip(t);
    SplitFirst(Escape(t), tail, '/');
    assert ([Escape(t)] + Split(tail, '/'))[1..] == Split(tail, '/');
  }

  /** Every location can be named, and its pointer names nothing else. */
  lemma PointerRoundTrip(path: Path)
    ensures ParsePointer(Pointer(path)) == Some(path)
  {
    if path != [] {
      PointerFields(path);
    }
  }

  lemma {:induction false} EscapeIsCanonical(s: string)
    requires '/' !in s && Unescape(s).Some?
    ensures Escape(Unescape(s).value) == s
  {
    if s != [] {
      if s[0] != '~' {
        EscapeIsCanonical(s[1..]);
        assert ([s[0]] + Unescape(s[1..]).value)[1..] == Unescape(s[1..]).value;
        assert [s[0]] + s[1..] == s;
      } else {
        EscapeIsCanonical(s[2..]);
        assert ([if s[1] == '0' then '~' else '/'] + Unescape(s[2..]).value)[1..] == Unescape(s[2..]).value;
        assert [s[0]] + [s[1]] + s[2..] == s;
      }
    }
  }

  lemma {:induction false} FieldsHaveNoSeparator(s: string, sep: char)
    ensures forall f :: f in Split(s, sep) ==> sep !in f
  {
    if s != [] {
      FieldsHaveNoSeparator(s[1..], sep);
      var rest := Split(s[1..], sep);
      assert rest[0] in rest && forall f :: f in rest[1..] ==> f in rest;
    }
  }

  lemma PointerOfField(field: string)
    requires '/' !in field && Unescape(field).Some?
    ensures Pointer([Unescape(field).value]) == "/" + field
  {
    var t := Unescape(field).value;
    EscapeIsCanonical(field);
    assert [t][1..] == [];
    assert Pointer([t]) == "/" + Escape(t) + Pointer([]);
    assert "/" + field + [] == "/" + field;
  }

  lemma PointerOfMore(field: string, rest: Path, tail: string)
    requires '/' !in field && Unescape(field).Some? && Pointer(rest) == "/" + tail
    ensures Pointer([Unescape(field).value] + rest) == "/" + (field + ['/'] + tail)
  {
    var path := [Unescape(field).value] + rest;
    EscapeIsCanonical(field);
    assert path[1..] == rest;
    assert Pointer(path) == "/" + field + ("/" + tail);
    assert "/" + field + ("/" + tail) == "/" + (field + ['/'] + tail);
  }

  lemma FieldsSplit(fields: seq<string>, path: Path)
    requires fields != [] && UnescapeAll(fields) == Some(path)
    ensures Unescape(fields[0]).Some? && UnescapeAll(fields[1..]).Some?
    ensures path == [Unescape(fields[0]).value] + UnescapeAll(fields[1..]).value
  {
  }

  lemma {:induction false} PointerOfFields(fields: seq<string>, path: Path)
    requires fields != [] && UnescapeAll(fields) == Some(path)
    requires forall i :: 0 <= i < |fields| ==> '/' !in fields[i]
    ensures path != [] && Pointer(path) == "/" + Join(fields, '/')
  {
    FieldsSplit(fields, path);
    if |fields| == 1 {
      assert fields[1..] == [];
      assert path == [Unescape(fields[0]).value];
      PointerOfField(fields[0]);
    } else {
      var rest := UnescapeAll(fields[1..]).value;
      PointerOfFields(fields[1..], rest);
      PointerOfMore(fields[0], rest, Join(fields[1..], '/'));
    }
  }

  /** The texts that are pointers to a location: exactly the one that is written for it. */
  lemma PointerIsCanonical(p: string, path: Path)
    ensures ParsePointer(p) == Some(path) <==> p == Pointer(path)
  {
    PointerRoundTrip(path);
    if ParsePointer(p) == Some(path) && p != [] {
      FieldsHaveNoSeparator(p[1..], '/');
      PointerOfFields(Split(p[1..], '/'), path);
      SplitThenJoin(p[1..], '/');
      assert p == "/" + p[1..];
    }
  }

  lemma EscapeFirst(c: char, t: string)
    ensures Escape([c] + t) == (if c == '~' then "~0" else if c == '/' then "~1" else [c]) + Escape(t)
  {
    assert ([c] + t)[1..] == t;
  }

  /** Section 3 of RFC 6901: a slash is written ~1 and a tilde ~0, so that ~01 stands for ~1. */
  lemma EscapedCharacters(t: string)
    ensures Escape("/" + t) == "~1" + Escape(t) && Escape("~" + t) == "~0" + Escape(t)
    ensures Unescape("~01" + Escape(t)) == Some("~1" + t)
  {
    EscapeFirst('/', t);
    EscapeFirst('~', t);
    TildeOne(t);
    EscapeRoundTrip("~1" + t);
  }

  lemma TildeOne(t: string)
    ensures Escape("~1" + t) == "~01" + Escape(t)
  {
    EscapeFirst('1', t);
    EscapeFirst('~', "1" + t);
    assert "~1" + t == ['~'] + ("1" + t);
    assert "~0" + ("1" + Escape(t)) == "~01" + Escape(t);
  }

  lemma {:induction false} PlainToken(t: string)
    requires '~' !in t && '/' !in t
    ensures Escape(t) == t
  {
    if t != [] {
      PlainToken(t[1..]);
    }
  }

  /** A reference token as an array index: digits without leading zeros. */
  function ArrayIndex(t: string): Option<nat> {
    if t != [] && AllDigits(t) && (|t| == 1 || t[0] != '0') then Some(DigitsValue(t)) else None
  }

  /** Evaluation of a pointer. */
  function Get(doc: Json, path: Path): Option<Json> {
    if path == [] then Some(doc)
    else
      match Child(doc, path[0])
      case Some(d) => Get(d, path[1..])
      case None => None
  }

  /** The value one reference token leads to. */
  function Child(doc: Json, t: string): Option<Json> {
    match doc
    case Obj(m) => if t in m then Some(m[t]) else None
    case Arr(a) => if ArrayIndex(t).Some? && ArrayIndex(t).value < |a| then Some(a[ArrayIndex(t).value]) else None
    case _ => None
  }

  lemma GetTwo(doc: Json, a: string, b: string)
    ensures Get(doc, [a, b]) == match Child(doc, a) case Some(d) => Child(d, b) case None => None
  {
    assert [a, b][1..] == [b] && [b][1..] == [];
    match Child(doc, a) {
      case Some(d) =>
        assert Get(d, [b]) == match Child(d, b) case Some(x) => Get(x, []) case None => None;
      case None =>
    }
  }

  lemma GetThree(doc: Json, a: string, b: string, c: string)
    ensures Get(doc, [a, b, c]) ==
            match Child(doc, a)
            case None => None
            case Some(d) => match Child(d, b) case None => None case Some(e) => Child(e, c)
  {
    assert [a, b, c][1..] == [b, c] && [b, c][1..] == [c] && [c][1..] == [];
    match Child(doc, a) {
      case None =>
      case Some(d) =>
        match Child(d, b) {
          case None =>
          case Some(e) =>
            assert Get(e, [c]) == match Child(e, c) case Some(x) => Get(x, []) case None => None;
        }
    }
  }

  // ---- Operations ----

  datatype Kind = Add | Replace

  datatype Op = Op(kind: Kind, path: string, value: Json)

  /** What replacing a missing object member does: section 4.3 of RFC 6902 makes it an error. */
  datatype Policy = Strict | Lenient

  function ApplyAt(policy: Policy, doc: Json, kind: Kind, path: Path, v: Json): (r: Option<Json>)
    decreases |path|, 0
  {
    if path == [] then Some(v)
    else
      match doc
      case Obj(m) =>
        (match EditMember(policy, Child(doc, path[0]), kind, path[1..], v)
         case Some(x) => Some(Obj(m[path[0] := x]))
         case None => None)
      case Arr(a) => EditElement(policy, a, kind, path, v)
      case _ => None
  }

  /** The new value of an object member whose present value is now. */
  function EditMember(policy: Policy, now: Option<Json>, kind: Kind, rest: Path, v: Json): (r: Option<Json>)
    decreases |rest|, 1
  {
    if rest == [] then
      if kind.Add? || now.Some? || policy.Lenient? then Some(v) else None
    else if now.Some? then ApplyAt(policy, now.value, kind, rest, v)
    else None
  }

  /** Section 4.1 of RFC 6902: adding to an array inserts, and the token - appends. */
  function EditElement(policy: Policy, a: seq<Json>, kind: Kind, path: Path, v: Json): (r: Option<Json>)
    requires path != []
    decreases |path| - 1, 1
  {
    var i := ArrayIndex(path[0]);
    if |path| == 1 && kind.Add? then
      if path[0] == "-" then Some(Arr(a + [v]))
      else if i.Some? && i.value <= |a| then Some(Arr(a[..i.value] + [v] + a[i.value..]))
      else None
    else if i.Some? && i.value < |a| then
      if |path| == 1 then Some(Arr(a[i.value := v]))
      else
        match ApplyAt(policy, a[i.value], kind, path[1..], v)
        case Some(x) => Some(Arr(a[i.value := x]))
        case None => None
    else None
  }

  function Apply(policy: Policy, doc: Json, op: Op): (r: Option<Json>) {
    match ParsePointer(op.path)
    case Some(path) => ApplyAt(policy, doc, op.kind, path, op.value)
    case None => None
  }

  /** Section 5 of RFC 6902: operations apply in order, and one failure rejects the whole patch. */
  function ApplyAll(policy: Policy, doc: Json, ops: seq<Op>): (r: Option<Json>)
    decreases ops
  {
    if ops == [] then Some(doc)
    else
      match Apply(policy, doc, ops[0])
      case Some(d) => ApplyAll(policy, d, ops[1..])
      case None => None
  }

  lemma {:induction false} ApplyAllConcat(policy: Policy, doc: Json, xs: seq<Op>, ys: seq<Op>)
    ensures ApplyAll(policy, doc, xs + ys) ==
            match ApplyAll(policy, doc, xs) case Some(d) => ApplyAll(policy, d, ys) case None => None
    decreases xs
  {
    if xs == [] {
      assert xs + ys == ys;
    } else {
      assert (xs + ys)[1..] == xs[1..] + ys;
      match Apply(policy, doc, xs[0]) {
        case Some(d) => ApplyAllConcat(policy, d, xs[1..], ys);
        case None =>
      }
    }
  }

  // ---- Independence ----

  ghost predicate Incomparable(p: Path, q: Path) {
    !(p <= q) && !(q <= p)
  }

  lemma DifferentHeads(p: Path, q: Path)
    requires p != [] && q != [] && p[0] != q[0]
    ensures Incomparable(p, q)
  {
  }

  lemma IncomparableTails(p: Path, q: Path)
    requires Incomparable(p, q) && p[0] == q[0]
    ensures p[1..] != [] && q[1..] != [] && Incomparable(p[1..], q[1..])
  {
    assert p == [p[0]] + p[1..] && q == [q[0]] + q[1..];
  }

  /** A new element at place p[0] gives the element that t names another index, or makes t name one. */
  ghost predicate MovesElement(a: seq<Json>, kind: Kind, p: Path, t: string)
    requires p != []
  {
    && kind.Add? && |p| == 1
    && ArrayIndex(t).Some?
    && var j := ArrayIndex(t).value;
       if p[0] == "-" then j == |a|
       else ArrayIndex(p[0]).Some? && ArrayIndex(p[0]).value < j <= |a|
  }

  /** The edit is an insertion into the array at which the two paths part, and moves what q names there. */
  ghost predicate Moves(doc: Json, kind: Kind, p: Path, q: Path) {
    && p != [] && q != []
    && if p[0] != q[0] then doc.Arr? && MovesElement(doc.elems, kind, p, q[0])
       else
         match Child(doc, p[0])
         case Some(d) => Moves(d, kind, p[1..], q[1..])
         case None => false
  }

  /** An edit leaves every location that its path does not meet as it was, unless it is an insertion that moves it. */
  lemma {:induction false} EditKeepsOthers(policy: Policy, doc: Json, kind: Kind, p: Path, v: Json, q: Path)
    requires Incomparable(p, q) && !Moves(doc, kind, p, q)
    ensures var r := ApplyAt(policy, doc, kind, p, v); r.Some? ==> Get(r.value, q) == Get(doc, q)
    decreases |p|
  {
    if p[0] == q[0] {
      IncomparableTails(p, q);
      match Child(doc, p[0]) {
        case Some(d) => EditKeepsOthers(policy, d, kind, p[1..], v, q[1..]);
        case None =>
      }
    } else if doc.Arr? {
      ElementsKept(policy, doc.elems, kind, p, v, q[0]);
    }
  }

  lemma ElementsKept(policy: Policy, a: seq<Json>, kind: Kind, p: Path, v: Json, t: string)
    requires p != [] && p[0] != t && !MovesElement(a, kind, p, t)
    ensures var r := EditElement(policy, a, kind, p, v); r.Some? ==> Child(r.value, t) == Child(Arr(a), t)
  {
    if ArrayIndex(t).Some? && ArrayIndex(t) == ArrayIndex(p[0]) {
      IndexIsInjective(p[0], t);
    }
  }

  /** An insertion before an element: its index then names what was one place earlier. */
  lemma InsertionMovesOthers(policy: Policy, a: seq<Json>, p: Path, v: Json, q: Path)
    requires p != [] && q != [] && p[0] != "-" && MovesElement(a, Add, p, q[0])
    ensures var r := ApplyAt(policy, Arr(a), Add, p, v);
            r.Some? && Get(r.value, q) == Get(a[ArrayIndex(q[0]).value - 1], q[1..])
  {
  }

  lemma {:induction false} ValueOfDigits(s: string, t: string)
    requires AllDigits(s) && AllDigits(t) && |s| == |t| && DigitsValue(s) == DigitsValue(t)
    ensures s == t
  {
    if s != [] {
      ValueOfDigits(s[..|s| - 1], t[..|t| - 1]);
      assert s == s[..|s| - 1] + [s[|s| - 1]] && t == t[..|t| - 1] + [t[|t| - 1]];
    }
  }

  lemma {:induction false} LongerIsLarger(s: string, n: nat)
    requires AllDigits(s) && s != [] && s[0] != '0' && n < |s|
    ensures DigitsValue(s) >= Pow10(n)
  {
    if |s| > 1 {
      assert s[..|s| - 1][0] == s[0];
      if n > 0 {
        LongerIsLarger(s[..|s| - 1], n - 1);
      } else {
        LongerIsLarger(s[..|s| - 1], 0);
      }
    } else {
      assert s[..0] == [] && DigitsValue([]) == 0;
    }
  }

  lemma {:induction false} ShorterIsSmaller(s: string)
    requires AllDigits(s)
    ensures DigitsValue(s) < Pow10(|s|)
  {
    if s != [] {
      ShorterIsSmaller(s[..|s| - 1]);
    }
  }

  /** Two reference tokens for one array index are the same token. */
  lemma IndexIsInjective(s: string, t: string)
    requires ArrayIndex(s).Some? && ArrayIndex(s) == ArrayIndex(t)
    ensures s == t
  {
    if |s| < |t| {
      ShorterIsSmaller(s);
      LongerIsLarger(t, |s|);
    } else if |t| < |s| {
      ShorterIsSmaller(t);
      LongerIsLarger(s, |t|);
    } else {
      ValueOfDigits(s, t);
    }
  }

  /** What an edit puts at its own location, when that is not a new array element. */
  lemma {:induction false} EditSetsOwn(policy: Policy, doc: Json, kind: Kind, p: Path, v: Json)
    requires p != [] ==> var parent := Get(doc, p[..|p| - 1]); parent.Some? ==> !parent.value.Arr? || kind.Replace?
    ensures var r := ApplyAt(policy, doc, kind, p, v); r.Some? ==> Get(r.value, p) == Some(v)
    decreases |p|
  {
    if |p| > 1 {
      match Child(doc, p[0]) {
        case Some(d) =>
          assert p[..|p| - 1][1..] == p[1..][..|p[1..]| - 1];
          EditSetsOwn(policy, d, kind, p[1..], v);
        case None =>
      }
    }
  }

  // ---- Order ----

  datatype Edit = Edit(kind: Kind, path: Path, value: Json)

  function Perform(policy: Policy, doc: Option<Json>, e: Edit): Option<Json> {
    match doc
    case Some(d) => ApplyAt(policy, d, e.kind, e.path, e.value)
    case None => None
  }

  /** The two orders of the edits. */
  ghost predicate Commute(policy: Policy, doc: Json, e: Edit, f: Edit) {
    Perform(policy, Perform(policy, Some(doc), e), f) == Perform(policy, Perform(policy, Some(doc), f), e)
  }

  predicate Applies(policy: Policy, doc: Json, kind: Kind, path: Path) {
    ApplyAt(policy, doc, kind, path, Null).Some?
  }

  predicate Inserts(e: Edit) {
    e.kind.Add? && |e.path| == 1
  }

  /** In an array, e inserts an element and thereby changes which element f edits, or whether f edits one at all. */
  ghost predicate DisturbsElement(policy: Policy, a: seq<Json>, e: Edit, f: Edit)
    requires e.path != [] && f.path != []
  {
    && Inserts(e)
    && ArrayIndex(f.path[0]).Some?
    && var j := ArrayIndex(f.path[0]).value;
       if e.path[0] == "-" then j == if Inserts(f) then |a| + 1 else |a|
       else
         && ArrayIndex(e.path[0]).Some? && ArrayIndex(e.path[0]).value <= |a| && ArrayIndex(e.path[0]).value < j
         && if Inserts(f) then j <= |a| + 1
            else
              && j <= |a|
              && (|| Applies(policy, a[j - 1], f.kind, f.path[1..])
                  || (j < |a| && Applies(policy, a[j], f.kind, f.path[1..])))
  }

  /** The paths part at an array in which e disturbs f; the values do not matter. */
  ghost predicate Disturbs(policy: Policy, doc: Json, e: Edit, f: Edit)
    decreases |e.path|
  {
    && e.path != [] && f.path != []
    && if e.path[0] != f.path[0] then doc.Arr? && DisturbsElement(policy, doc.elems, e, f)
       else
         match Child(doc, e.path[0])
         case Some(d) => Disturbs(policy, d, Below(e), Below(f))
         case None => false
  }

  function Below(e: Edit): Edit
    requires e.path != []
  {
    e.(path := e.path[1..])
  }

  /** Edits whose paths do not meet, and of which neither disturbs the other, have the same effect in either order. */
  lemma {:induction false} EditsCommute(policy: Policy, doc: Json, e: Edit, f: Edit)
    requires Incomparable(e.path, f.path) && !Disturbs(policy, doc, e, f) && !Disturbs(policy, doc, f, e)
    ensures Commute(policy, doc, e, f)
    decreases |e.path|
  {
    if e.path[0] != f.path[0] {
      if doc.Arr? {
        ElementEditsCommute(policy, doc.elems, e, f);
      } else {
        EditsAtDistinctMembersCommute(policy, doc, e, f);
      }
    } else {
      IncomparableTails(e.path, f.path);
      match Child(doc, e.path[0]) {
        case None =>
          NoSuchChild(policy, doc, e);
          NoSuchChild(policy, doc, f);
        case Some(d) =>
          EditsCommute(policy, d, Below(e), Below(f));
          OrdersBelow(policy, doc, e, f);
      }
    }
  }

  /** Edits of which one disturbs the other do not commute: some values tell the two orders apart. */
  lemma {:induction false} DisturbedEditsDiffer(policy: Policy, doc: Json, e: Edit, f: Edit) returns (v: Json, w: Json)
    requires Incomparable(e.path, f.path) && Disturbs(policy, doc, e, f)
    ensures !Commute(policy, doc, e.(value := v), f.(value := w))
    decreases |e.path|
  {
    if e.path[0] != f.path[0] {
      v, w := DisturbedElement(policy, doc.elems, e, f);
    } else {
      IncomparableTails(e.path, f.path);
      v, w := DisturbedEditsDiffer(policy, Child(doc, e.path[0]).value, Below(e), Below(f));
      OrdersBelow(policy, doc, e.(value := v), f.(value := w));
    }
  }

  /** Exactly when two edits with incomparable paths commute whatever they write. */
  lemma EditsCommuteIff(policy: Policy, doc: Json, e: Edit, f: Edit)
    requires Incomparable(e.path, f.path)
    ensures (forall v, w :: Commute(policy, doc, e.(value := v), f.(value := w))) <==>
            !Disturbs(policy, doc, e, f) && !Disturbs(policy, doc, f, e)
  {
    if Disturbs(policy, doc, e, f) {
      var v, w := DisturbedEditsDiffer(policy, doc, e, f);
    } else if Disturbs(policy, doc, f, e) {
      var w, v := DisturbedEditsDiffer(policy, doc, f, e);
      assert !Commute(policy, doc, e.(value := v), f.(value := w));
    } else {
      forall v, w
        ensures Commute(policy, doc, e.(value := v), f.(value := w))
      {
        ValuesDoNotDisturb(policy, doc, e, v, f, w);
        ValuesDoNotDisturb(policy, doc, f, w, e, v);
        EditsCommute(policy, doc, e.(value := v), f.(value := w));
      }
    }
  }

  lemma {:induction false} ValuesDoNotDisturb(policy: Policy, doc: Json, e: Edit, v: Json, f: Edit, w: Json)
    ensures Disturbs(policy, doc, e.(value := v), f.(value := w)) <==> Disturbs(policy, doc, e, f)
    decreases |e.path|
  {
    if e.path != [] && f.path != [] && e.path[0] == f.path[0] {
      match Child(doc, e.path[0]) {
        case Some(d) => ValuesDoNotDisturb(policy, d, Below(e), v, Below(f), w);
        case None =>
      }
    }
  }

  /** At a common first token the orders agree exactly if they agree below it. */
  lemma OrdersBelow(policy: Policy, doc: Json, e: Edit, f: Edit)
    requires |e.path| > 1 && |f.path| > 1 && e.path[0] == f.path[0] && Child(doc, e.path[0]).Some?
    ensures Commute(policy, doc, e, f) <==> Commute(policy, Child(doc, e.path[0]).value, Below(e), Below(f))
  {
    if doc.Obj? {
      OrdersBelowMember(policy, doc.members, e, f);
    } else {
      OrdersBelowElement(policy, doc.elems, e, f);
    }
  }

  lemma OrdersBelowMember(policy: Policy, m: map<string, Json>, e: Edit, f: Edit)
    requires |e.path| > 1 && |f.path| > 1 && e.path[0] == f.path[0] && e.path[0] in m
    ensures Commute(policy, Obj(m), e, f) <==> Commute(policy, m[e.path[0]], Below(e), Below(f))
  {
    var t := e.path[0];
    EditsBelowMember(policy, m, e, f);
    EditsBelowMember(policy, m, f, e);
    var x := Perform(policy, Perform(policy, Some(m[t]), Below(e)), Below(f));
    var y := Perform(policy, Perform(policy, Some(m[t]), Below(f)), Below(e));
    if x.Some? && y.Some? {
      MembersDiffer(m, t, x.value, y.value);
    }
  }

  lemma OrdersBelowElement(policy: Policy, a: seq<Json>, e: Edit, f: Edit)
    requires |e.path| > 1 && |f.path| > 1 && e.path[0] == f.path[0] && Child(Arr(a), e.path[0]).Some?
    ensures Commute(policy, Arr(a), e, f) <==> Commute(policy, a[ArrayIndex(e.path[0]).value], Below(e), Below(f))
  {
    var i := ArrayIndex(e.path[0]).value;
    EditsBelowElement(policy, a, e, f);
    EditsBelowElement(policy, a, f, e);
    var x := Perform(policy, Perform(policy, Some(a[i]), Below(e)), Below(f));
    var y := Perform(policy, Perform(policy, Some(a[i]), Below(f)), Below(e));
    if x.Some? && y.Some? {
      ElementsDiffer(a, i, x.value, y.value);
    }
  }

  lemma MembersDiffer(m: map<string, Json>, t: string, x: Json, y: Json)
    ensures m[t := x] == m[t := y] <==> x == y
  {
    assert m[t := x][t] == x && m[t := y][t] == y;
  }

  lemma ElementsDiffer(a: seq<Json>, i: nat, x: Json, y: Json)
    requires i < |a|
    ensures a[i := x] == a[i := y] <==> x == y
  {
    assert a[i := x][i] == x && a[i := y][i] == y;
  }

  // ---- Two edits in one array ----

  /** What an edit does in an array, by the kind of its token. */
  lemma EditInArray(policy: Policy, a: seq<Json>, e: Edit)
    requires e.path != []
    ensures var r := Perform(policy, Some(Arr(a)), e);
            if ArrayIndex(e.path[0]).None? then
              r == if Inserts(e) && e.path[0] == "-" then Some(Arr(a + [e.value])) else None
            else
              var i := ArrayIndex(e.path[0]).value;
              if Inserts(e) then r == if i <= |a| then Some(Arr(a[..i] + [e.value] + a[i..])) else None
              else
                r == if i < |a| then
                       match ApplyAt(policy, a[i], e.kind, e.path[1..], e.value)
                       case Some(x) => Some(Arr(a[i := x]))
                       case None => None
                     else None
  {
    assert ApplyAt(policy, Arr(a), e.kind, e.path, e.value) == EditElement(policy, a, e.kind, e.path, e.value);
    DashIsNoIndex();
    if |e.path| == 1 && ArrayIndex(e.path[0]).Some? && ArrayIndex(e.path[0]).value < |a| {
      assert e.path[1..] == [];
    }
  }

  lemma DashIsNoIndex()
    ensures ArrayIndex("-") == None
  {
    assert "-"[0] == '-' && !IsDigit('-');
  }

  lemma ElementEditsCommute(policy: Policy, a: seq<Json>, e: Edit, f: Edit)
    requires e.path != [] && f.path != [] && e.path[0] != f.path[0]
    requires !DisturbsElement(policy, a, e, f) && !DisturbsElement(policy, a, f, e)
    ensures Commute(policy, Arr(a), e, f)
  {
    var i, j := ArrayIndex(e.path[0]), ArrayIndex(f.path[0]);
    EditInArray(policy, a, e);
    EditInArray(policy, a, f);
    if i.None? && !(Inserts(e) && e.path[0] == "-") {
      NeverInArray(policy, e);
    } else if j.None? && !(Inserts(f) && f.path[0] == "-") {
      NeverInArray(policy, f);
    } else if i.None? {
      AppendCommutes(policy, a, e, f);
    } else if j.None? {
      AppendCommutes(policy, a, f, e);
    } else {
      if i == j {
        IndexIsInjective(e.path[0], f.path[0]);
      }
      if i.value < j.value {
        IndexedEditsCommute(policy, a, e, f);
      } else {
        IndexedEditsCommute(policy, a, f, e);
      }
    }
  }

  // A token that is neither an index nor an append names nothing in any array.
  lemma NeverInArray(policy: Policy, e: Edit)
    requires e.path != [] && ArrayIndex(e.path[0]).None? && !(Inserts(e) && e.path[0] == "-")
    ensures forall a :: Perform(policy, Some(Arr(a)), e) == None
  {
    forall a
      ensures Perform(policy, Some(Arr(a)), e) == None
    {
      EditInArray(policy, a, e);
    }
  }

  lemma AppendCommutes(policy: Policy, a: seq<Json>, e: Edit, f: Edit)
    requires Inserts(e) && e.path[0] == "-" && f.path != [] && ArrayIndex(f.path[0]).Some?
    requires !DisturbsElement(policy, a, e, f)
    ensures Commute(policy, Arr(a), e, f)
  {
    var j := ArrayIndex(f.path[0]).value;
    EditInArray(policy, a, e);
    EditInArray(policy, a, f);
    EditInArray(policy, a + [e.value], f);
    if Inserts(f) {
      if j <= |a| {
        var b := a[..j] + [f.value] + a[j..];
        EditInArray(policy, b, e);
        assert (a + [e.value])[..j] + [f.value] + (a + [e.value])[j..] == b + [e.value];
      }
    } else if j < |a| {
      match ApplyAt(policy, a[j], f.kind, f.path[1..], f.value) {
        case Some(y) =>
          EditInArray(policy, a[j := y], e);
          assert (a + [e.value])[j := y] == a[j := y] + [e.value];
        case None =>
      }
    }
  }

  lemma IndexedEditsCommute(policy: Policy, a: seq<Json>, e: Edit, f: Edit)
    requires e.path != [] && f.path != []
    requires ArrayIndex(e.path[0]).Some? && ArrayIndex(f.path[0]).Some?
    requires ArrayIndex(e.path[0]).value < ArrayIndex(f.path[0]).value
    requires !DisturbsElement(policy, a, e, f)
    ensures Commute(policy, Arr(a), e, f)
  {
    EditInArray(policy, a, e);
    EditInArray(policy, a, f);
    if Inserts(e) {
      InsertionCommutes(policy, a, e, f);
    } else if Inserts(f) {
      ChangeBeforeInsertion(policy, a, e, f);
    } else {
      ChangesCommute(policy, a, e, f);
    }
  }

  lemma InsertionCommutes(policy: Policy, a: seq<Json>, e: Edit, f: Edit)
    requires Inserts(e) && f.path != []
    requires ArrayIndex(e.path[0]).Some? && ArrayIndex(f.path[0]).Some?
    requires ArrayIndex(e.path[0]).value < ArrayIndex(f.path[0]).value
    requires !DisturbsElement(policy, a, e, f)
    ensures Commute(policy, Arr(a), e, f)
  {
    var i, j := ArrayIndex(e.path[0]).value, ArrayIndex(f.path[0]).value;
    EditInArray(policy, a, e);
    EditInArray(policy, a, f);
    if i <= |a| {
      var b := a[..i] + [e.value] + a[i..];
      EditInArray(policy, b, f);
      if !Inserts(f) && j <= |a| {
        assert b[j] == a[j - 1];
        AnyValueApplies(policy, a[j - 1], f.kind, f.path[1..], f.value);
        if j < |a| {
          AnyValueApplies(policy, a[j], f.kind, f.path[1..], f.value);
        }
      }
    }
  }

  lemma ChangeBeforeInsertion(policy: Policy, a: seq<Json>, e: Edit, f: Edit)
    requires e.path != [] && !Inserts(e) && Inserts(f)
    requires ArrayIndex(e.path[0]).Some? && ArrayIndex(f.path[0]).Some?
    requires ArrayIndex(e.path[0]).value < ArrayIndex(f.path[0]).value
    ensures Commute(policy, Arr(a), e, f)
  {
    var i, j := ArrayIndex(e.path[0]).value, ArrayIndex(f.path[0]).value;
    EditInArray(policy, a, e);
    EditInArray(policy, a, f);
    if j <= |a| {
      var b := a[..j] + [f.value] + a[j..];
      EditInArray(policy, b, e);
      assert b[i] == a[i];
      match ApplyAt(policy, a[i], e.kind, e.path[1..], e.value) {
        case Some(x) =>
          EditInArray(policy, a[i := x], f);
          assert a[i := x][..j] + [f.value] + a[i := x][j..] == b[i := x];
        case None =>
      }
    } else if i < |a| {
      match ApplyAt(policy, a[i], e.kind, e.path[1..], e.value) {
        case Some(x) => EditInArray(policy, a[i := x], f);
        case None =>
      }
    }
  }

  lemma ChangesCommute(policy: Policy, a: seq<Json>, e: Edit, f: Edit)
    requires e.path != [] && f.path != [] && !Inserts(e) && !Inserts(f)
    requires ArrayIndex(e.path[0]).Some? && ArrayIndex(f.path[0]).Some?
    requires ArrayIndex(e.path[0]).value != ArrayIndex(f.path[0]).value
    ensures Commute(policy, Arr(a), e, f)
  {
    var i, j := ArrayIndex(e.path[0]).value, ArrayIndex(f.path[0]).value;
    EditInArray(policy, a, e);
    EditInArray(policy, a, f);
    var x := if i < |a| then ApplyAt(policy, a[i], e.kind, e.path[1..], e.value) else None;
    var y := if j < |a| then ApplyAt(policy, a[j], f.kind, f.path[1..], f.value) else None;
    if x.Some? {
      EditInArray(policy, a[i := x.value], f);
    }
    if y.Some? {
      EditInArray(policy, a[j := y.value], e);
    }
    if x.Some? && y.Some? {
      assert a[i := x.value][j := y.value] == a[j := y.value][i := x.value];
    }
  }

  // ---- Disturbed edits ----

  /** Both results fail, or neither does and they differ. */
  predicate Tell(r: Option<Json>, s: Option<Json>) {
    (r.Some? <==> s.Some?) && (r.Some? ==> r != s)
  }

  // Whether an edit applies does not depend on its value, and its result tells the value.
  lemma {:induction false} ResultsTell(policy: Policy, doc: Json, kind: Kind, p: Path, v: Json, w: Json)
    requires v != w
    ensures Tell(ApplyAt(policy, doc, kind, p, v), ApplyAt(policy, doc, kind, p, w))
    decreases |p|, 1
  {
    if p != [] {
      match doc
      case Obj(m) => MemberResultsTell(policy, m, kind, p, v, w);
      case Arr(a) => ElementResultsTell(policy, a, kind, p, v, w);
      case _ =>
    }
  }

  function WithMember(m: map<string, Json>, t: string, x: Option<Json>): Option<Json> {
    match x
    case Some(v) => Some(Obj(m[t := v]))
    case None => None
  }

  lemma MembersTell(m: map<string, Json>, t: string, x: Option<Json>, y: Option<Json>)
    requires Tell(x, y)
    ensures Tell(WithMember(m, t, x), WithMember(m, t, y))
  {
    if x.Some? {
      MembersDiffer(m, t, x.value, y.value);
    }
  }

  lemma EditInObject(policy: Policy, m: map<string, Json>, kind: Kind, p: Path, v: Json)
    requires p != []
    ensures ApplyAt(policy, Obj(m), kind, p, v) ==
            WithMember(m, p[0], EditMember(policy, Child(Obj(m), p[0]), kind, p[1..], v))
  {
  }

  lemma {:induction false} MemberResultsTell(policy: Policy, m: map<string, Json>, kind: Kind, p: Path,
                                             v: Json, w: Json)
    requires p != [] && v != w
    ensures Tell(ApplyAt(policy, Obj(m), kind, p, v), ApplyAt(policy, Obj(m), kind, p, w))
    decreases |p|, 0
  {
    EditInObject(policy, m, kind, p, v);
    EditInObject(policy, m, kind, p, w);
    var now := Child(Obj(m), p[0]);
    if now.Some? {
      ResultsTell(policy, now.value, kind, p[1..], v, w);
    }
    MembersTell(m, p[0], EditMember(policy, now, kind, p[1..], v), EditMember(policy, now, kind, p[1..], w));
  }

  lemma {:induction false} ElementResultsTell(policy: Policy, a: seq<Json>, kind: Kind, p: Path, v: Json, w: Json)
    requires p != [] && v != w
    ensures Tell(ApplyAt(policy, Arr(a), kind, p, v), ApplyAt(policy, Arr(a), kind, p, w))
    decreases |p|, 0
  {
    var i := ArrayIndex(p[0]);
    EditInArray(policy, a, Edit(kind, p, v));
    EditInArray(policy, a, Edit(kind, p, w));
    if kind.Add? && |p| == 1 {
      if i.None? {
        assert (a + [v])[|a|] == v && (a + [w])[|a|] == w;
      } else if i.value <= |a| {
        assert (a[..i.value] + [v] + a[i.value..])[i.value] == v;
        assert (a[..i.value] + [w] + a[i.value..])[i.value] == w;
      }
    } else if i.Some? && i.value < |a| {
      ResultsTell(policy, a[i.value], kind, p[1..], v, w);
      var x, y := ApplyAt(policy, a[i.value], kind, p[1..], v), ApplyAt(policy, a[i.value], kind, p[1..], w);
      if x.Some? {
        ElementsDiffer(a, i.value, x.value, y.value);
      }
    }
  }

  lemma AnyValueApplies(policy: Policy, doc: Json, kind: Kind, p: Path, v: Json)
    ensures ApplyAt(policy, doc, kind, p, v).Some? <==> Applies(policy, doc, kind, p)
  {
    if v != Null {
      ResultsTell(policy, doc, kind, p, v, Null);
    }
  }

  /** A document in which a path can be edited. */
  function Receptive(path: Path): Json {
    if path == [] then Null else Obj(map[path[0] := Receptive(path[1..])])
  }

  lemma {:induction false} ReceptiveApplies(policy: Policy, kind: Kind, path: Path, w: Json)
    ensures ApplyAt(policy, Receptive(path), kind, path, w).Some?
  {
    if path != [] {
      ReceptiveApplies(policy, kind, path[1..], w);
    }
  }

  // Some value changes a document that an edit applies to.
  lemma TellingValue(policy: Policy, doc: Json, kind: Kind, p: Path) returns (w: Json)
    requires Applies(policy, doc, kind, p)
    ensures ApplyAt(policy, doc, kind, p, w).Some? && ApplyAt(policy, doc, kind, p, w) != Some(doc)
  {
    ResultsTell(policy, doc, kind, p, Null, Bool(true));
    w := if ApplyAt(policy, doc, kind, p, Null) == Some(doc) then Bool(true) else Null;
  }

  lemma DisturbedElement(policy: Policy, a: seq<Json>, e: Edit, f: Edit) returns (v: Json, w: Json)
    requires e.path != [] && f.path != [] && DisturbsElement(policy, a, e, f)
    ensures !Commute(policy, Arr(a), e.(value := v), f.(value := w))
  {
    if e.path[0] == "-" {
      v, w := Receptive(f.path[1..]), Null;
      DisturbedByAppend(policy, a, e.(value := v), f.(value := w));
    } else if Inserts(f) {
      var j := ArrayIndex(f.path[0]).value;
      v, w := Null, if j <= |a| && a[j - 1] == Null then Bool(true) else Null;
      DisturbedInsertion(policy, a, e.(value := v), f.(value := w));
    } else {
      var j := ArrayIndex(f.path[0]).value;
      v := Null;
      if Applies(policy, a[j - 1], f.kind, f.path[1..]) {
        w := TellingValue(policy, a[j - 1], f.kind, f.path[1..]);
      } else {
        w := Null;
      }
      DisturbedChange(policy, a, e.(value := v), f.(value := w));
    }
  }

  lemma DisturbedByAppend(policy: Policy, a: seq<Json>, e: Edit, f: Edit)
    requires e.path != [] && f.path != [] && DisturbsElement(policy, a, e, f)
    requires e.path[0] == "-" && e.value == Receptive(f.path[1..])
    ensures !Commute(policy, Arr(a), e, f)
  {
    DashIsNoIndex();
    EditInArray(policy, a, e);
    EditInArray(policy, a, f);
    EditInArray(policy, a + [e.value], f);
    ReceptiveApplies(policy, f.kind, f.path[1..], f.value);
  }

  lemma DisturbedInsertion(policy: Policy, a: seq<Json>, e: Edit, f: Edit)
    requires e.path != [] && f.path != [] && DisturbsElement(policy, a, e, f)
    requires e.path[0] != "-" && Inserts(f)
    requires var j := ArrayIndex(f.path[0]).value; j <= |a| ==> f.value != a[j - 1]
    ensures !Commute(policy, Arr(a), e, f)
  {
    var i, j := ArrayIndex(e.path[0]).value, ArrayIndex(f.path[0]).value;
    var b := a[..i] + [e.value] + a[i..];
    EditInArray(policy, a, e);
    EditInArray(policy, a, f);
    EditInArray(policy, b, f);
    assert (b[..j] + [f.value] + b[j..])[j] == f.value;
    if j <= |a| {
      var c := a[..j] + [f.value] + a[j..];
      EditInArray(policy, c, e);
      assert (c[..i] + [e.value] + c[i..])[j] == c[j - 1] == a[j - 1];
    }
  }

  lemma DisturbedChange(policy: Policy, a: seq<Json>, e: Edit, f: Edit)
    requires e.path != [] && f.path != [] && DisturbsElement(policy, a, e, f)
    requires e.path[0] != "-" && !Inserts(f)
    requires var j := ArrayIndex(f.path[0]).value;
             Applies(policy, a[j - 1], f.kind, f.path[1..]) ==>
               ApplyAt(policy, a[j - 1], f.kind, f.path[1..], f.value) != Some(a[j - 1])
    ensures !Commute(policy, Arr(a), e, f)
  {
    var i, j := ArrayIndex(e.path[0]).value, ArrayIndex(f.path[0]).value;
    var b := a[..i] + [e.value] + a[i..];
    EditInArray(policy, a, e);
    EditInArray(policy, a, f);
    EditInArray(policy, b, f);
    assert b[j] == a[j - 1];
    AnyValueApplies(policy, a[j - 1], f.kind, f.path[1..], f.value);
    if j < |a| {
      AnyValueApplies(policy, a[j], f.kind, f.path[1..], f.value);
      match ApplyAt(policy, a[j], f.kind, f.path[1..], f.value) {
        case Some(y) =>
          var c := a[j := y];
          EditInArray(policy, c, e);
          assert (c[..i] + [e.value] + c[i..])[j] == c[j - 1] == a[j - 1];
        case None =>
      }
    }
  }

  lemma NoSuchChild(policy: Policy, doc: Json, e: Edit)
    requires |e.path| > 1 && Child(doc, e.path[0]).None?
    ensures ApplyAt(policy, doc, e.kind, e.path, e.value) == None
  {
    assert e.path[1..] != [];
  }

  lemma BelowMember(policy: Policy, m: map<string, Json>, e: Edit)
    requires |e.path| > 1 && e.path[0] in m
    ensures ApplyAt(policy, Obj(m), e.kind, e.path, e.value) ==
            match ApplyAt(policy, m[e.path[0]], e.kind, e.path[1..], e.value)
            case Some(x) => Some(Obj(m[e.path[0] := x]))
            case None => None
  {
    assert e.path[1..] != [];
  }

  lemma BelowElement(policy: Policy, a: seq<Json>, e: Edit)
    requires |e.path| > 1 && Child(Arr(a), e.path[0]).Some?
    ensures var i := ArrayIndex(e.path[0]).value;
            ApplyAt(policy, Arr(a), e.kind, e.path, e.value) ==
            match ApplyAt(policy, a[i], e.kind, e.path[1..], e.value)
            case Some(x) => Some(Arr(a[i := x]))
            case None => None
  {
    assert e.path[1..] != [];
  }

  lemma EditsAtDistinctMembersCommute(policy: Policy, doc: Json, e: Edit, f: Edit)
    requires e.path != [] && f.path != [] && e.path[0] != f.path[0] && !doc.Arr?
    ensures Perform(policy, Perform(policy, Some(doc), e), f) == Perform(policy, Perform(policy, Some(doc), f), e)
  {
    if doc.Obj? {
      var m, s, t := doc.members, e.path[0], f.path[0];
      var x := EditMember(policy, Child(doc, s), e.kind, e.path[1..], e.value);
      var y := EditMember(policy, Child(doc, t), f.kind, f.path[1..], f.value);
      if x.Some? && y.Some? {
        assert m[s := x.value][t := y.value] == m[t := y.value][s := x.value];
      }
    }
  }

  lemma EditsBelowMember(policy: Policy, m: map<string, Json>, e: Edit, f: Edit)
    requires |e.path| > 1 && |f.path| > 1 && e.path[0] == f.path[0] && e.path[0] in m
    ensures Perform(policy, Perform(policy, Some(Obj(m)), e), f) ==
            match Perform(policy, Perform(policy, Some(m[e.path[0]]), e.(path := e.path[1..])), f.(path := f.path[1..]))
            case Some(x) => Some(Obj(m[e.path[0] := x]))
            case None => None
  {
    var t := e.path[0];
    BelowMember(policy, m, e);
    match Perform(policy, Some(m[t]), e.(path := e.path[1..])) {
      case None =>
      case Some(x) =>
        var r := ApplyAt(policy, x, f.kind, f.path[1..], f.value);
        BelowMember(policy, m[t := x], f);
        assert r.Some? ==> m[t := x][t := r.value] == m[t := r.value];
    }
  }

  lemma EditsBelowElement(policy: Policy, a: seq<Json>, e: Edit, f: Edit)
    requires |e.path| > 1 && |f.path| > 1 && e.path[0] == f.path[0] && Child(Arr(a), e.path[0]).Some?
    ensures var i := ArrayIndex(e.path[0]).value;
            Perform(policy, Perform(policy, Some(Arr(a)), e), f) ==
            match Perform(policy, Perform(policy, Some(a[i]), e.(path := e.path[1..])), f.(path := f.path[1..]))
            case Some(x) => Some(Arr(a[i := x]))
            case None => None
  {
    var i := ArrayIndex(e.path[0]).value;
    BelowElement(policy, a, e);
    match Perform(policy, Some(a[i]), e.(path := e.path[1..])) {
      case None =>
      case Some(x) =>
        var r := ApplyAt(policy, x, f.kind, f.path[1..], f.value);
        BelowElement(policy, a[i := x], f);
        assert r.Some? ==> a[i := x][i := r.value] == a[i := r.value];
    }
  }

  /** Parting at an array is not enough: an insertion shifts the element that the other pointer names. */
  lemma InsertionShiftsElements(policy: Policy, u: Json, x: Json, y: Json)
    requires y != u
    ensures var e, f := Edit(Add, ["0"], x), Edit(Replace, ["1"], y);
            && Incomparable(e.path, f.path)
            && Perform(policy, Perform(policy, Some(Arr([u, u])), e), f) == Some(Arr([x, y, u]))
            && Perform(policy, Perform(policy, Some(Arr([u, u])), f), e) == Some(Arr([x, u, y]))
            && Arr([x, y, u]) != Arr([x, u, y])
  {
    assert "0"[0] != "1"[0];
    DifferentHeads(["0"], ["1"]);
    assert ArrayIndex("0") == Some(0) && ArrayIndex("1") == Some(1) by {
      assert DigitsValue([]) == 0;
      assert "0"[..0] == [] && "1"[..0] == [];
    }
    assert [u, u][..0] + [x] + [u, u][0..] == [x, u, u];
    assert [x, u, u][1 := y] == [x, y, u];
    assert [u, u][1 := y] == [u, y];
    assert [u, y][..0] + [x] + [u, y][0..] == [x, u, y];
    assert [x, y, u][1] != [x, u, y][1];
  }
}
