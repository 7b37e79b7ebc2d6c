/**
  JSON Patch as section 4 of RFC 6902 defines it, on values, and what cJSON_Utils makes of it.
 */
module PatchRfc {
  import opened Text
  import opened Json
  import opened Pointer
  import opened Compare
  import opened Patch
  import D = DiffApply

  // ---- RFC 6901: a path is its decoded tokens.

  type Path = seq<string>

  function PathText(p: Path): string {
    if p == [] then "" else "/" + Encode(p[0]) + PathText(p[1..])
  }

  predicate Numeric(s: string) { forall i :: 0 <= i < |s| ==> IsDigit(s[i]) }

  // An array index has no leading zero.
  function Index(s: string): Option<nat> {
    if s != "" && Numeric(s) && (s[0] == '0' ==> s == "0") then
      NumericIs(s);
      Some(DecimalValue(s))
    else None
  }

  lemma NumericIs(s: string)
    requires Numeric(s)
    ensures forall c <- s :: IsDigit(c)
  {
  }

  function Child(v: Val, token: string): Option<Val> {
    match v
    case VObject(f) => if Fold(token) in f then Some(f[Fold(token)]) else None
    case VArray(items) =>
      if Index(token).Some? && Index(token).value < |items| then Some(items[Index(token).value]) else None
    case _ => None
  }

  // The value at a place.
  function Look(v: Val, p: Path): Option<Val> {
    if p == [] then Some(v)
    else match Child(v, p[0]) case Some(w) => Look(w, p[1..]) case None => None
  }

  function SetChild(v: Val, token: string, w: Val): Val
    requires Child(v, token).Some?
  {
    match v
    case VObject(f) => VObject(f[Fold(token) := w])
    case VArray(items) => VArray(items[Index(token).value := w])
  }

  // The document with another value at a place.
  function Set(v: Val, p: Path, w: Val): Val
    requires Look(v, p).Some?
  {
    if p == [] then w else SetChild(v, p[0], Set(Child(v, p[0]).value, p[1..], w))
  }

  // ---- RFC 6902, section 4; None is an error.

  // 4.1, in the container that the path ends in.
  function Insert(v: Val, token: string, x: Val): Option<Val> {
    match v
    case VObject(f) => Some(VObject(f[Fold(token) := x]))
    case VArray(items) =>
      if token == "-" then Some(VArray(items + [x]))
      else if Index(token).Some? && Index(token).value <= |items| then
        var i := Index(token).value;
        Some(VArray(items[..i] + [x] + items[i..]))
      else None
    case _ => None
  }

  // 4.2
  function Cut(v: Val, token: string): Option<Val> {
    if Child(v, token).None? then None
    else
      match v
      case VObject(f) => Some(VObject(f - {Fold(token)}))
      case VArray(items) => var i := Index(token).value; Some(VArray(items[..i] + items[i + 1..]))
  }

  function Parent(path: Path): Path
    requires path != []
  {
    path[..|path| - 1]
  }

  function Last(path: Path): string
    requires path != []
  {
    path[|path| - 1]
  }

  function InParent(v: Val, path: Path, w: Option<Val>): Option<Val>
    requires path != [] && (w.Some? ==> Look(v, Parent(path)).Some?)
  {
    if w.None? then None else Some(Set(v, Parent(path), w.value))
  }

  function Added(v: Val, path: Path, x: Val): Option<Val>
    requires path != []
  {
    var p := Look(v, Parent(path));
    InParent(v, path, if p.None? then None else Insert(p.value, Last(path), x))
  }

  function Removed(v: Val, path: Path): Option<Val>
    requires path != []
  {
    var p := Look(v, Parent(path));
    InParent(v, path, if p.None? then None else Cut(p.value, Last(path)))
  }

  // 4.3
  function Replaced(v: Val, path: Path, x: Val): Option<Val> {
    if Look(v, path).None? then None else Some(Set(v, path, x))
  }

  // 4.4: a remove, then an add of the value that was removed.
  function Moved(v: Val, from: Path, path: Path): Option<Val>
    requires from != [] && path != []
  {
    if from < path || Look(v, from).None? || Removed(v, from).None? then None
    else Added(Removed(v, from).value, path, Look(v, from).value)
  }

  // 4.5
  function Copied(v: Val, from: Path, path: Path): Option<Val>
    requires path != []
  {
    if Look(v, from).None? then None else Added(v, path, Look(v, from).value)
  }

  // 4.6
  function Tested(v: Val, path: Path, x: Val): Option<Val> {
    if Look(v, path) == Some(x) then Some(v) else None
  }

  function Rfc(v: Val, op: Op, path: Path, from: Path, x: Val): Option<Val>
    requires path != [] && from != []
  {
    match op
    case Add => Added(v, path, x)
    case Remove => Removed(v, path)
    case Replace => Replaced(v, path, x)
    case Move => Moved(v, from, path)
    case Copy => Copied(v, from, path)
    case Test => Tested(v, path, x)
  }

  // ---- Paths in the tree.

  lemma {:induction false} IndexIs(s: string)
    requires Index(s).Some?
    ensures s == Decimal(Index(s).value)
  {
    var n := |s| - 1;
    NumericIs(s);
    if n > 0 {
      NumericIs(s[..n]);
      IndexIs(s[..n]);
      NotZero(s[..n]);
      assert s == s[..n] + [s[n]];
    } else {
      assert s == [s[0]] && s[..0] == "";
      assert DecimalValue(s) == s[0] as int - '0' as int;
    }
  }

  lemma {:induction false} NotZero(s: string)
    requires Index(s).Some? && s[0] != '0'
    ensures Index(s).value > 0
  {
    var n := |s| - 1;
    NumericIs(s);
    if n > 0 {
      NumericIs(s[..n]);
      NotZero(s[..n]);
    }
  }

  // Tokens at arrays are indices.
  predicate Plain(v: Val, p: Path) {
    p == []
    || ((v.VArray? ==> Index(p[0]).Some?) && (Child(v, p[0]).Some? ==> Plain(Child(v, p[0]).value, p[1..])))
  }

  lemma {:induction false} FoundIsPlain(v: Val, p: Path)
    requires Look(v, p).Some?
    ensures Plain(v, p)
  {
    if p != [] {
      FoundIsPlain(Child(v, p[0]).value, p[1..]);
    }
  }

  lemma PathEnds(p: Path)
    ensures AtTokenEnd(PathText(p))
  {
  }

  lemma {:induction false} PathSnoc(p: Path, token: string)
    ensures PathText(p + [token]) == PathText(p) + "/" + Encode(token)
  {
    hide Encode;
    var e := Encode(token);
    if p == [] {
      assert [] + [token] == [token] && [token][1..] == [] && "/" + e + "" == "" + "/" + e;
    } else {
      var head, rest := "/" + Encode(p[0]), PathText(p[1..]);
      PathSnoc(p[1..], token);
      assert (p + [token])[1..] == p[1..] + [token];
      hide PathText;
      ConcatAssoc(head, rest, "/");
      ConcatAssoc(head, rest + "/", e);
    }
  }

  // The child that a token names.
  function ChildAt(t: Json, token: string): nat {
    match t
    case Object(ms, _) => IndexOf(ms, Fold(token))
    case Array(items) => if Index(token).Some? then Index(token).value else |items|
    case _ => 0
  }

  lemma ChildIs(t: Json, token: string)
    ensures
      var i, c := ChildAt(t, token), Child(Canon(t), token);
      && (c.Some? <==> i < |Children(t)|)
      && (c.Some? ==> Canon(Children(t)[i]) == c.value)
  {
    if t.Object? {
      CanonAt(t.members, Fold(token));
    }
  }

  lemma StepDown(t: Json, token: string, rest: string)
    requires t.Array? ==> Index(token).Some?
    requires AtTokenEnd(rest)
    ensures GetPointer(t, "/" + Encode(token) + rest) == Descend(t, ChildAt(t, token), rest)
  {
    match t
    case Object(_, _) => PointerIntoObject(t, token, rest);
    case Array(items) =>
      IndexIs(token);
      D.EncodeDecimal(Index(token).value);
      PointerIntoArray(items, Index(token).value, rest);
    case _ =>
  }

  lemma SetItemIs(items: seq<Json>, i: nat, x: Json)
    requires i < |items|
    ensures CanonItems(items[i := x]) == CanonItems(items)[i := Canon(x)]
  {
    hide Canon;
  }

  lemma SetChildIs(t: Json, token: string, x: Json)
    requires CaseDistinct(t) && CaseDistinct(x) && Child(Canon(t), token).Some?
    ensures
      var i := ChildAt(t, token);
      && i < |Children(t)|
      && Canon(WithChild(t, i, x)) == SetChild(Canon(t), token, Canon(x))
      && CaseDistinct(WithChild(t, i, x))
  {
    ChildIs(t, token);
    var i := ChildAt(t, token);
    hide CanonItems, CanonMembers;
    match t
    case Array(items) => SetItemIs(items, i, x);
    case Object(ms, _) => CanonUpdate(ms, i, x);
  }

  // The place that a pointer leads to, and putting another node there.
  lemma {:induction false} PlaceIs(t: Json, p: Path, x: Json)
    requires CaseDistinct(t) && CaseDistinct(x) && Plain(Canon(t), p)
    ensures
      var at, w := GetPointer(t, PathText(p)), Look(Canon(t), p);
      && (at.Some? <==> w.Some?)
      && (at.Some? ==>
           && ValidAt(t, at.value) && Canon(NodeAt(t, at.value)) == w.value && CaseDistinct(NodeAt(t, at.value))
           && Canon(ReplaceAt(t, at.value, x)) == Set(Canon(t), p, Canon(x))
           && CaseDistinct(ReplaceAt(t, at.value, x)))
    decreases p
  {
    if p != [] {
      hide *;
      var i, rest := ChildAt(t, p[0]), PathText(p[1..]);
      PathEnds(p[1..]);
      SameShape(t);
      PlainStep(Canon(t), p);
      StepDown(t, p[0], rest);
      ChildIs(t, p[0]);
      PlaceStep(t, p, i, x);
      if i < |Children(t)| {
        ChildCaseDistinct(t, i);
        PlaceIs(Children(t)[i], p[1..], x);
        var at := GetPointer(Children(t)[i], rest);
        if at.Some? {
          SetChildIs(t, p[0], ReplaceAt(Children(t)[i], at.value, x));
        }
      }
    }
  }

  lemma PlainStep(v: Val, p: Path)
    requires p != [] && Plain(v, p)
    ensures v.VArray? ==> Index(p[0]).Some?
    ensures Child(v, p[0]).Some? ==> Plain(Child(v, p[0]).value, p[1..])
  {
  }

  // One step of the descent on both sides.
  lemma PlaceStep(t: Json, p: Path, i: nat, x: Json)
    requires p != []
    ensures PathText(p) == "/" + Encode(p[0]) + PathText(p[1..])
    ensures Look(Canon(t), p) == match Child(Canon(t), p[0]) case Some(w) => Look(w, p[1..]) case None => None
    ensures
      Descend(t, i, PathText(p[1..]))
      == if i >= |Children(t)| then None
         else match GetPointer(Children(t)[i], PathText(p[1..])) case None => None case Some(at) => Some([i] + at)
    ensures Look(Canon(t), p).Some? ==>
      Set(Canon(t), p, Canon(x))
      == SetChild(Canon(t), p[0], Set(Child(Canon(t), p[0]).value, p[1..], Canon(x)))
    ensures forall at: Location | i < |Children(t)| && ValidAt(Children(t)[i], at) ::
      && ValidAt(t, [i] + at) && NodeAt(t, [i] + at) == NodeAt(Children(t)[i], at)
      && ReplaceAt(t, [i] + at, x) == WithChild(t, i, ReplaceAt(Children(t)[i], at, x))
  {
    hide Canon, Child, SetChild, Children, WithChild, GetPointer, Encode;
    forall at: Location | i < |Children(t)| && ValidAt(Children(t)[i], at)
      ensures ValidAt(t, [i] + at) && NodeAt(t, [i] + at) == NodeAt(Children(t)[i], at)
      ensures ReplaceAt(t, [i] + at, x) == WithChild(t, i, ReplaceAt(Children(t)[i], at, x))
    {
      assert ([i] + at)[1..] == at;
    }
  }

  // ---- The two halves of an operation.

  // What an add makes of its container: an index past the end appends, and a value that is no
  // container stays as it is.
  function Placed(v: Val, token: string, x: Val): Val {
    match Insert(v, token, x)
    case Some(w) => w
    case None => if v.VArray? then VArray(v.items + [x]) else v
  }

  // What a removal leaves, of a container and of the document.
  function Dropped(v: Val, token: string): Val {
    match Cut(v, token) case Some(w) => w case None => v
  }

  function Rest(v: Val, path: Path): Val
    requires path != []
  {
    match Removed(v, path) case Some(u) => u case None => v
  }

  // The last token fits its container.
  predicate Fits(v: Val, path: Path, dash: bool)
    requires path != []
  {
    && Plain(v, Parent(path))
    && var p := Look(v, Parent(path));
       p.Some? && p.value.VArray? ==> Index(Last(path)).Some? || (dash && Last(path) == "-")
  }

  function AddAnswer(v: Val, path: Path, x: Val): (int, Val)
    requires path != []
  {
    match Look(v, Parent(path))
    case None => (9, v)
    case Some(w) => (0, Set(v, Parent(path), Placed(w, Last(path), x)))
  }

  lemma ListIndexIs(token: string)
    requires Index(token).Some?
    ensures ListIndex(token) == Index(token).value && token != "-"
  {
    IndexIs(token);
    D.AtoiDecimal(Index(token).value);
  }

  lemma InsertItemIs(items: seq<Json>, i: nat, x: Json)
    ensures CanonItems(InsertAt(items, i, x))
         == var vs := CanonItems(items); if i < |vs| then vs[..i] + [Canon(x)] + vs[i..] else vs + [Canon(x)]
  {
    hide Canon;
  }

  lemma AddChildIs(t: Json, token: string, x: Json)
    requires CaseDistinct(t) && CaseDistinct(x)
    requires t.Array? ==> token == "-" || Index(token).Some?
    ensures CaseDistinct(AddChild(t, token, x))
    ensures Canon(AddChild(t, token, x)) == Placed(Canon(t), token, Canon(x))
  {
    hide CanonItems, CanonMembers, PutKey, Index, InsertAt;
    match t
    case Array(items) => AddItemIs(items, token, x);
    case Object(_, _) => CanonPut(t, token, x);
    case _ =>
  }

  lemma AddItemIs(items: seq<Json>, token: string, x: Json)
    requires CaseDistinct(Array(items)) && CaseDistinct(x) && (token == "-" || Index(token).Some?)
    ensures
      var r := AddChild(Array(items), token, x);
      CaseDistinct(r) && r.Array? && Canon(r) == Placed(VArray(CanonItems(items)), token, Canon(x))
  {
    hide Index, ListIndex;
    var i := if token == "-" then |items| else ListIndex(token);
    if token != "-" {
      ListIndexIs(token);
    }
    InsertItemIs(items, i, x);
    ItemsStay(items, x, InsertAt(items, i, x));
    hide CanonItems, CaseDistinct;
  }

  lemma ItemsStay(items: seq<Json>, x: Json, items': seq<Json>)
    requires (forall y <- items :: CaseDistinct(y)) && CaseDistinct(x)
    requires forall y <- items' :: y in items || y == x
    ensures CaseDistinct(Array(items'))
  {
  }

  lemma ResolveIs(doc: Json, path: Path)
    requires path != []
    ensures Resolve(doc, PathText(path)) == MakeTarget(GetPointer(doc, PathText(Parent(path))), Some(Last(path)))
  {
    hide Resolve, GetPointer;
    assert path == Parent(path) + [Last(path)];
    PathSnoc(Parent(path), Last(path));
    EncodeHasNoSlash(Last(path));
    DecodeEncode(Last(path));
    D.ResolveSplit(doc, PathText(path), PathText(Parent(path)), Encode(Last(path)));
  }

  lemma AddAtIs(doc: Json, path: Path, x: Json)
    requires Clean(doc) && CaseDistinct(doc) && CaseDistinct(x)
    requires path != [] && Fits(Canon(doc), path, true)
    ensures
      var r := AddAt(doc, PathText(path), x);
      r.Done? && (r.code, Canon(r.doc)) == AddAnswer(Canon(doc), path, Canon(x)) && CaseDistinct(r.doc)
  {
    hide PathText, GetPointer, Canon, CaseDistinct, Clean, AddChild, Placed, ReplaceAt, NodeAt, Set, Look, Index;
    ResolveIs(doc, path);
    PlaceIs(doc, Parent(path), doc);
    var at := GetPointer(doc, PathText(Parent(path)));
    if at.Some? {
      var w := NodeAt(doc, at.value);
      CleanAt(doc, at.value, w);
      CleanDetaches(w, Last(path));
      SameShape(w);
      AddChildIs(w, Last(path), x);
      PlaceIs(doc, Parent(path), AddChild(w, Last(path), x));
    }
  }

  lemma CleanDetaches(t: Json, token: string)
    requires Clean(t)
    ensures CanDetach(t, ChildIndex(t, token))
  {
  }

  lemma SameShape(t: Json)
    ensures (Canon(t).VArray? <==> t.Array?) && (Canon(t).VObject? <==> t.Object?)
  {
  }

  lemma CutItemIs(items: seq<Json>, i: nat)
    requires i < |items|
    ensures CanonItems(Without(items, i)) == CanonItems(items)[..i] + CanonItems(items)[i + 1..]
  {
    hide Canon, CanonItems;
    assert Without(items, i) == items[0..i] + items[i + 1..|items|];
    D.CanonConcat(items[0..i], items[i + 1..|items|]);
    SliceIs(items, 0, i);
    SliceIs(items, i + 1, |items|);
  }

  lemma SliceIs(items: seq<Json>, i: nat, j: nat)
    requires i <= j <= |items|
    ensures CanonItems(items[i..j]) == CanonItems(items)[i..j]
  {
    hide Canon;
    var a, b := CanonItems(items[i..j]), CanonItems(items);
    forall k | 0 <= k < j - i ensures a[k] == b[i..j][k] {
      assert items[i..j][k] == items[i + k];
    }
  }

  lemma CutStays(items: seq<Json>, i: nat)
    requires i < |items| && CaseDistinct(Array(items))
    ensures CaseDistinct(Array(Without(items, i)))
  {
    var w := Without(items, i);
    forall y | y in w ensures CaseDistinct(y) {
      assert y in items[..i] || y in items[i + 1..];
    }
  }

  lemma RemoveChildIs(t: Json, token: string)
    requires CaseDistinct(t) && (t.Array? ==> Index(token).Some?)
    ensures ChildIndex(t, token) < |Children(t)| <==> ChildAt(t, token) < |Children(t)|
    ensures ChildAt(t, token) < |Children(t)| ==> ChildIndex(t, token) == ChildAt(t, token)
    ensures CaseDistinct(RemoveChild(t, token))
    ensures Canon(RemoveChild(t, token)) == Dropped(Canon(t), token)
  {
    ChildIs(t, token);
    hide CanonItems, CanonMembers, Index, ListIndex, IndexOf;
    match t
    case Array(items) =>
      ListIndexIs(token);
      if ListIndex(token) < |items| {
        CutItemIs(items, ListIndex(token));
        CutStays(items, ListIndex(token));
      }
    case Object(ms, _) =>
      CanonDropKey(ms, token);
      DropNothing(ms, Fold(token));
    case _ =>
  }

  lemma DropNothing(ms: seq<Member>, fk: string)
    ensures fk !in CanonMembers(ms) ==> CanonMembers(ms) - {fk} == CanonMembers(ms)
  {
  }

  lemma {:induction false} LookSnoc(v: Val, p: Path, token: string)
    ensures Look(v, p + [token]) == match Look(v, p) case Some(w) => Child(w, token) case None => None
  {
    if p == [] {
      assert [token][1..] == [] && [] + [token] == [token];
    } else {
      assert (p + [token])[1..] == p[1..] + [token];
      if Child(v, p[0]).Some? {
        LookSnoc(Child(v, p[0]).value, p[1..], token);
      }
    }
  }

  // Putting back what is there.
  lemma {:induction false} SetSame(v: Val, p: Path)
    requires Look(v, p).Some?
    ensures Set(v, p, Look(v, p).value) == v
  {
    if p != [] {
      SetSame(Child(v, p[0]).value, p[1..]);
      SetChildSame(v, p[0]);
    }
  }

  lemma SetChildSame(v: Val, token: string)
    requires Child(v, token).Some?
    ensures SetChild(v, token, Child(v, token).value) == v
  {
  }

  lemma RestIs(v: Val, path: Path)
    requires path != []
    ensures
      var p := Look(v, Parent(path));
      && (p.None? ==> Rest(v, path) == v)
      && (p.Some? ==> Rest(v, path) == Set(v, Parent(path), Dropped(p.value, Last(path))))
  {
    var p := Look(v, Parent(path));
    hide Look, Set, Cut;
    if p.Some? {
      SetSame(v, Parent(path));
    }
  }

  lemma DetachIs(doc: Json, path: Path)
    requires Clean(doc) && CaseDistinct(doc)
    requires path != [] && Fits(Canon(doc), path, false)
    ensures
      var d, w := PatchDetach(doc, PathText(path)), Look(Canon(doc), path);
      && d.Detached? && Canon(d.doc) == Rest(Canon(doc), path) && CaseDistinct(d.doc) && Clean(d.doc)
      && (d.item.Some? <==> w.Some?)
      && (w.Some? ==> Canon(d.item.value) == w.value && CaseDistinct(d.item.value) && Clean(d.item.value))
  {
    hide *;
    var v, text := Canon(doc), PathText(path);
    var at := GetPointer(doc, PathText(Parent(path)));
    CleanDetach(doc, text);
    ResolveIs(doc, path);
    DetachTarget(doc, text, at, Last(path));
    FitsIs(v, path, false);
    PlaceIs(doc, Parent(path), doc);
    RestIs(v, path);
    SplitPath(path);
    LookSnoc(v, Parent(path), Last(path));
    if at.Some? {
      var w := NodeAt(doc, at.value);
      CleanAt(doc, at.value, w);
      SameShape(w);
      DetachedChild(w, Last(path));
      PlaceIs(doc, Parent(path), RemoveChild(w, Last(path)));
    }
  }

  lemma SplitPath(path: Path)
    requires path != []
    ensures path == Parent(path) + [Last(path)]
  {
  }

  lemma FitsIs(v: Val, path: Path, dash: bool)
    requires path != [] && Fits(v, path, dash)
    ensures Plain(v, Parent(path))
    ensures var p := Look(v, Parent(path));
      p.Some? && p.value.VArray? ==> Index(Last(path)).Some? || (dash && Last(path) == "-")
  {
  }

  lemma DetachTarget(doc: Json, text: string, at: Option<Location>, child: string)
    requires Resolve(doc, text) == MakeTarget(at, Some(child))
    ensures at.None? ==> PatchDetach(doc, text) == Detached(None, doc)
    ensures at.Some? ==> ValidAt(doc, at.value)
    ensures at.Some? ==>
      var w := NodeAt(doc, at.value);
      var i := ChildIndex(w, child);
      CanDetach(w, i) ==>
        PatchDetach(doc, text) == Detached(if i < |Children(w)| then Some(Children(w)[i]) else None,
                                           ReplaceAt(doc, at.value, RemoveChild(w, child)))
  {
    hide Resolve, NodeAt, ReplaceAt, RemoveChild, Children, ChildIndex, CanDetach;
  }

  // The child that is detached.
  lemma DetachedChild(w: Json, token: string)
    requires Clean(w) && CaseDistinct(w) && (w.Array? ==> Index(token).Some?)
    ensures
      var i, c := ChildIndex(w, token), Child(Canon(w), token);
      && CanDetach(w, i) && (i < |Children(w)| <==> c.Some?)
      && (c.Some? ==> Canon(Children(w)[i]) == c.value && CaseDistinct(Children(w)[i]))
      && CaseDistinct(RemoveChild(w, token)) && Canon(RemoveChild(w, token)) == Dropped(Canon(w), token)
  {
    CleanDetaches(w, token);
    RemoveChildIs(w, token);
    ChildIs(w, token);
    hide Canon, CaseDistinct, Clean, RemoveChild, Index, Dropped, Child, ChildAt, ChildIndex, Children;
    if ChildAt(w, token) < |Children(w)| {
      ChildCaseDistinct(w, ChildAt(w, token));
    }
  }

  // ---- Whole operations.

  // What each operation answers and leaves, on values.
  function Answer(v: Val, op: Op, path: Path, from: Path, x: Val): (int, Val)
    requires path != [] && from != []
  {
    match op
    case Add => AddAnswer(v, path, x)
    case Remove => (0, Rest(v, path))
    case Replace => AddAnswer(Rest(v, path), path, x)
    case Move => if Look(v, from).None? then (5, v) else AddAnswer(Rest(v, from), path, Look(v, from).value)
    case Copy => if Look(v, from).None? then (5, v) else AddAnswer(v, path, Look(v, from).value)
    case Test => (if Look(v, path) == Some(x) then 0 else 1, v)
  }

  // The tokens fit the arrays that they are used on.
  predicate OpFits(v: Val, op: Op, path: Path, from: Path)
    requires path != [] && from != []
  {
    match op
    case Add => Fits(v, path, true)
    case Remove => Fits(v, path, false)
    case Replace => Fits(v, path, false) && Fits(Rest(v, path), path, false)
    case Move => Fits(v, from, false) && Fits(Rest(v, from), path, true)
    case Copy => Plain(v, from) && Fits(v, path, true)
    case Test => Plain(v, path)
  }

  lemma FitsToo(v: Val, path: Path)
    requires path != [] && Fits(v, path, false)
    ensures Fits(v, path, true)
  {
  }

  // The operation with a `from` and a value, on paths.
  function Operate(doc: Json, op: Op, path: Path, from: Path, value: Json): Outcome {
    ApplyOperation(doc, op, PathText(path), Some(String(PathText(from))), Some(value))
  }

  lemma OperateIs(doc: Json, op: Op, path: Path, from: Path, value: Json)
    ensures op == Add ==> Operate(doc, op, path, from, value) == AddAt(doc, PathText(path), Duplicate(value))
    ensures
      var d := PatchDetach(doc, PathText(path));
      d.Detached? ==>
        && (op == Remove ==> Operate(doc, op, path, from, value) == Done(0, d.doc))
        && (op == Replace ==> Operate(doc, op, path, from, value) == AddAt(d.doc, PathText(path), Duplicate(value)))
    ensures
      var d := PatchDetach(doc, PathText(from));
      op == Move && d.Detached? ==>
        Operate(doc, op, path, from, value)
        == if d.item.None? then Done(5, d.doc) else AddAt(d.doc, PathText(path), d.item.value)
  {
    hide AddAt, PatchDetach, PathText, Duplicate;
  }

  lemma CopyIs(doc: Json, path: Path, from: Path, value: Json)
    ensures
      var at := GetPointer(doc, PathText(from));
      && (at.Some? ==> ValidAt(doc, at.value))
      && Operate(doc, Copy, path, from, value)
         == if at.None? then Done(5, doc) else AddAt(doc, PathText(path), Duplicate(NodeAt(doc, at.value)))
  {
    GetPointerValid(doc, PathText(from));
    hide AddAt, PathText, GetPointer, Duplicate, NodeAt;
  }

  /** Every operation but `test`, exactly. */
  lemma Applied(doc: Json, op: Op, path: Path, from: Path, value: Json)
    requires Clean(doc) && CaseDistinct(doc) && CaseDistinct(value) && path != [] && from != []
    requires op != Test && OpFits(Canon(doc), op, path, from)
    ensures
      var r := Operate(doc, op, path, from, value);
      && r.Done? && (r.code, Canon(r.doc)) == Answer(Canon(doc), op, path, from, Canon(value))
      && Clean(r.doc) && CaseDistinct(r.doc)
  {
    var v, x := Canon(doc), Duplicate(value);
    DuplicateCanon(value);
    CleanStays(doc, op, PathText(path), Some(String(PathText(from))), Some(value));
    OperateIs(doc, op, path, from, value);
    hide PathText, GetPointer, Canon, CaseDistinct, Clean, ReplaceAt, NodeAt, Look, Rest, AddAt, PatchDetach, AddAnswer, Duplicate, Fits, Plain, ApplyOperation;
    match op
    case Add => AddAtIs(doc, path, x);
    case Remove => DetachIs(doc, path);
    case Replace =>
      DetachIs(doc, path);
      FitsToo(Rest(v, path), path);
      AddAtIs(PatchDetach(doc, PathText(path)).doc, path, x);
    case Move =>
      DetachIs(doc, from);
      var d := PatchDetach(doc, PathText(from));
      if d.item.Some? {
        AddAtIs(d.doc, path, d.item.value);
      } else {
        NothingToDetach(v, from);
      }
    case Copy =>
      CopyIs(doc, path, from, value);
      PlaceIs(doc, from, doc);
      var at := GetPointer(doc, PathText(from));
      if at.Some? {
        DuplicateCanon(NodeAt(doc, at.value));
        AddAtIs(doc, path, Duplicate(NodeAt(doc, at.value)));
      }
  }

  lemma NothingToDetach(v: Val, path: Path)
    requires path != [] && Look(v, path).None?
    ensures Removed(v, path).None? && Rest(v, path) == v
  {
    assert path == Parent(path) + [Last(path)];
    LookSnoc(v, Parent(path), Last(path));
    hide Look;
  }

  /** A test answers 0 exactly if the place holds the value. */
  lemma TestedIs(doc: Json, path: Path, from: Path, value: Json)
    requires CaseDistinct(doc) && CaseDistinct(value) && Plain(Canon(doc), path)
    ensures
      var r, w := Operate(doc, Test, path, from, value), Look(Canon(doc), path);
      && (r.Undefined? <==> w.None?)
      && (w.Some? ==> (r.code == 0 <==> w.value == Canon(value)) && Canon(r.doc) == Canon(doc))
  {
    GetPointerValid(doc, PathText(path));
    var at := GetPointer(doc, PathText(path));
    PlaceIs(doc, path, doc);
    hide PathText, GetPointer, Canon, CaseDistinct, ReplaceAt, NodeAt, Look, Plain, Compare.Compare, Compared, Set;
    if at.Some? {
      var w := NodeAt(doc, at.value);
      CompareDecides(w, value);
      ComparedKeeps(w, value);
      PlaceIs(doc, path, Compared(w, value));
      SetSame(Canon(doc), path);
    }
  }

  // ---- What is found where something was put.

  lemma SetChildLook(v: Val, token: string, w: Val)
    requires Child(v, token).Some?
    ensures Child(SetChild(v, token, w), token) == Some(w)
  {
  }

  lemma {:induction false} SetLook(v: Val, p: Path, a: Val, b: Val)
    requires Look(v, p).Some?
    ensures Look(Set(v, p, a), p) == Some(a) && Set(Set(v, p, a), p, b) == Set(v, p, b)
  {
    if p != [] {
      var w := Child(v, p[0]).value;
      SetLook(w, p[1..], a, b);
      SetChildLook(v, p[0], Set(w, p[1..], a));
      SetChildTwice(v, p[0], Set(w, p[1..], a), Set(w, p[1..], b));
      hide SetChild, Child;
    }
  }

  lemma SetChildTwice(v: Val, token: string, a: Val, b: Val)
    requires Child(v, token).Some?
    ensures Child(SetChild(v, token, a), token).Some?
    ensures SetChild(SetChild(v, token, a), token, b) == SetChild(v, token, b)
  {
  }

  lemma {:induction false} SetSnoc(v: Val, p: Path, token: string, x: Val)
    requires Look(v, p).Some? && Child(Look(v, p).value, token).Some?
    ensures Look(v, p + [token]).Some?
    ensures Set(v, p + [token], x) == Set(v, p, SetChild(Look(v, p).value, token, x))
    decreases p
  {
    LookSnoc(v, p, token);
    hide SetChild, Child;
    if p == [] {
      assert [token][1..] == [] && [] + [token] == [token];
    } else {
      assert (p + [token])[1..] == p[1..] + [token];
      SetSnoc(Child(v, p[0]).value, p[1..], token, x);
    }
  }

  // Cutting a child out and putting another value there replaces it.
  lemma CutThenInsert(v: Val, token: string, x: Val)
    requires Child(v, token).Some?
    ensures Cut(v, token).Some? && Insert(Cut(v, token).value, token, x) == Some(SetChild(v, token, x))
  {
    match v
    case VArray(items) =>
      ListIndexIs(token);
      var i := Index(token).value;
      assert (items[..i] + items[i + 1..])[..i] == items[..i] && (items[..i] + items[i + 1..])[i..] == items[i + 1..];
      assert items[i := x] == items[..i] + [x] + items[i + 1..];
    case VObject(f) => assert (f - {Fold(token)})[Fold(token) := x] == f[Fold(token) := x];
  }

  // ---- The operations of the RFC are carried out.

  lemma AddedIs(v: Val, path: Path, x: Val)
    requires path != [] && Added(v, path, x).Some?
    ensures Fits(v, path, true) && AddAnswer(v, path, x) == (0, Added(v, path, x).value)
  {
    FoundIsPlain(v, Parent(path));
    hide Look, Plain, Set;
  }

  lemma RemovedIs(v: Val, path: Path)
    requires path != [] && Removed(v, path).Some?
    ensures Fits(v, path, false) && Rest(v, path) == Removed(v, path).value
  {
    FoundIsPlain(v, Parent(path));
    hide Look, Plain, Set;
  }

  lemma ReplacedIs(v: Val, path: Path, x: Val)
    requires path != [] && Look(v, path).Some?
    ensures Removed(v, path).Some? && Added(Removed(v, path).value, path, x) == Some(Set(v, path, x))
    ensures Fits(Removed(v, path).value, path, false)
  {
    var p, token := Parent(path), Last(path);
    assert path == p + [token];
    LookSnoc(v, p, token);
    SetSnoc(v, p, token, x);
    var w := Look(v, p).value;
    CutThenInsert(w, token, x);
    SetLook(v, p, Cut(w, token).value, SetChild(w, token, x));
    FoundIsPlain(Removed(v, path).value, p);
    hide Look, Set, Plain, Insert;
  }

  lemma RfcIsAnswered(v: Val, op: Op, path: Path, from: Path, x: Val)
    requires path != [] && from != [] && Rfc(v, op, path, from, x).Some?
    ensures OpFits(v, op, path, from) && Answer(v, op, path, from, x) == (0, Rfc(v, op, path, from, x).value)
  {
    hide Look, Fits, Plain, Added, AddAnswer, Removed, Set;
    match op
    case Add => AddedIs(v, path, x);
    case Remove => RemovedIs(v, path);
    case Replace =>
      ReplacedIs(v, path, x);
      RemovedIs(v, path);
      AddedIs(Rest(v, path), path, x);
    case Move =>
      RemovedIs(v, from);
      AddedIs(Rest(v, from), path, Look(v, from).value);
    case Copy =>
      FoundIsPlain(v, from);
      AddedIs(v, path, Look(v, from).value);
    case Test => FoundIsPlain(v, path);
  }

  /** Where section 4 of RFC 6902 gives a result, the operation answers 0 and leaves that result. */
  lemma RfcApplied(doc: Json, op: Op, path: Path, from: Path, value: Json)
    requires Clean(doc) && CaseDistinct(doc) && CaseDistinct(value) && path != [] && from != []
    ensures
      var r, v := Operate(doc, op, path, from, value), Rfc(Canon(doc), op, path, from, Canon(value));
      v.Some? ==> r.Done? && r.code == 0 && Canon(r.doc) == v.value
  {
    var v := Canon(doc);
    hide Operate, Canon, CaseDistinct, Clean, Answer, OpFits;
    if Rfc(v, op, path, from, Canon(value)).Some? {
      RfcIsAnswered(v, op, path, from, Canon(value));
      if op == Test {
        FoundIsPlain(v, path);
        TestedIs(doc, path, from, value);
      } else {
        Applied(doc, op, path, from, value);
      }
    }
  }

  // An add to what is no container, or past the end of an array.
  predicate Overruns(v: Val, path: Path)
    requires path != []
  {
    match Look(v, Parent(path))
    case None => false
    case Some(w) =>
      match w
      case VObject(_) => false
      case VArray(items) => Index(Last(path)).Some? && Index(Last(path)).value > |items|
      case _ => true
  }

  // An error of the RFC that goes unnoticed.
  predicate Quiet(v: Val, op: Op, path: Path, from: Path)
    requires path != [] && from != []
  {
    match op
    case Add => Overruns(v, path)
    case Remove => Look(v, path).None?
    case Replace => Look(v, path).None? && Look(v, Parent(path)).Some?
    case Move =>
      Look(v, from).Some?
      && (Overruns(Rest(v, from), path) || (from < path && Look(Rest(v, from), Parent(path)).Some?))
    case Copy => Look(v, from).Some? && Overruns(v, path)
    case Test => false
  }

  lemma AddedUnless(v: Val, path: Path, x: Val)
    requires path != [] && Fits(v, path, true)
    ensures AddAnswer(v, path, x).0 == 0 <==> Look(v, Parent(path)).Some?
    ensures Added(v, path, x).Some? <==> Look(v, Parent(path)).Some? && !Overruns(v, path)
  {
    hide Look, Plain, Set;
  }

  lemma RemovedUnless(v: Val, path: Path)
    requires path != []
    ensures Removed(v, path).Some? <==> Look(v, path).Some?
  {
    assert path == Parent(path) + [Last(path)];
    LookSnoc(v, Parent(path), Last(path));
    hide Look, Set;
  }

  lemma OverrunsFound(v: Val, path: Path)
    requires path != []
    ensures Overruns(v, path) ==> Look(v, Parent(path)).Some?
  {
  }

  // The container is still there without the child.
  lemma RestParent(v: Val, path: Path)
    requires path != []
    ensures Look(Rest(v, path), Parent(path)).Some? <==> Look(v, Parent(path)).Some?
    ensures Look(v, path).Some? ==> Look(v, Parent(path)).Some?
  {
    var p := Look(v, Parent(path));
    assert path == Parent(path) + [Last(path)];
    LookSnoc(v, Parent(path), Last(path));
    RestIs(v, path);
    if p.Some? {
      SetLook(v, Parent(path), Dropped(p.value, Last(path)), p.value);
    }
    hide Look, Set;
  }

  lemma QuietIs(v: Val, op: Op, path: Path, from: Path, x: Val)
    requires path != [] && from != [] && OpFits(v, op, path, from)
    ensures Answer(v, op, path, from, x).0 == 0 <==> Rfc(v, op, path, from, x).Some? || Quiet(v, op, path, from)
    ensures Rfc(v, op, path, from, x).Some? ==> !Quiet(v, op, path, from)
  {
    hide Look, Fits, Plain, Added, AddAnswer, Removed, Set, Overruns;
    match op
    case Add =>
      AddedUnless(v, path, x);
      OverrunsFound(v, path);
    case Remove => RemovedUnless(v, path);
    case Replace =>
      FitsToo(Rest(v, path), path);
      AddedUnless(Rest(v, path), path, x);
      RemovedUnless(v, path);
      RestParent(v, path);
    case Move =>
      RemovedUnless(v, from);
      if Look(v, from).Some? {
        AddedUnless(Rest(v, from), path, Look(v, from).value);
        OverrunsFound(Rest(v, from), path);
      }
    case Copy =>
      if Look(v, from).Some? {
        AddedUnless(v, path, Look(v, from).value);
        OverrunsFound(v, path);
      }
    case Test =>
  }

  /** Errors of the RFC: those that answer 0 all the same are exactly the quiet ones. */
  lemma ErrorsNoticed(doc: Json, op: Op, path: Path, from: Path, value: Json)
    requires Clean(doc) && CaseDistinct(doc) && CaseDistinct(value) && path != [] && from != []
    requires OpFits(Canon(doc), op, path, from)
    ensures
      var v, r := Canon(doc), Operate(doc, op, path, from, value);
      && (r.Done? && r.code == 0 <==> Rfc(v, op, path, from, Canon(value)).Some? || Quiet(v, op, path, from))
      && (Rfc(v, op, path, from, Canon(value)).Some? ==> !Quiet(v, op, path, from))
  {
    var v := Canon(doc);
    QuietIs(v, op, path, from, Canon(value));
    hide Operate, Canon, CaseDistinct, Clean, Quiet;
    if op == Test {
      TestedIs(doc, path, from, value);
    } else {
      hide Answer, OpFits;
      Applied(doc, op, path, from, value);
    }
  }

  /** A move that fails behind its removal answers 9, and the value is lost. */
  lemma MoveLoses(doc: Json, path: Path, from: Path, value: Json)
    requires Clean(doc) && CaseDistinct(doc) && CaseDistinct(value) && path != [] && from != []
    requires OpFits(Canon(doc), Move, path, from) && Look(Canon(doc), from).Some?
    ensures
      var u, r := Removed(Canon(doc), from), Operate(doc, Move, path, from, value);
      && u.Some? && r.Done?
      && (r.code == 0 <==> Look(u.value, Parent(path)).Some?)
      && (r.code != 0 ==> r.code == 9 && Canon(r.doc) == u.value)
  {
    RemovedUnless(Canon(doc), from);
    hide Operate, Canon, CaseDistinct, Clean, OpFits, Look, Removed;
    Applied(doc, Move, path, from, value);
  }

  /** A token that is no index is read as a number all the same: removing the end takes the first. */
  lemma DashRemovesFirst(x: Json, items: seq<Json>)
    ensures Removed(Canon(Array([x] + items)), ["-"]) == None
    ensures Operate(Array([x] + items), Remove, ["-"], ["-"], Null) == Done(0, Array(items))
  {
    hide *;
    var doc := Array([x] + items);
    SameShape(doc);
    NoDash(Canon(doc));
    DashIsZero();
    FirstGone(x, items, "-");
    D.DetachHere(doc, "-");
    OperateIs(doc, Remove, ["-"], ["-"], Null);
    DetachedDoc(doc, PatchDetach(doc, PathText(["-"])), "-");
  }

  lemma NoDash(v: Val)
    requires v.VArray?
    ensures Removed(v, ["-"]) == None
  {
    assert Parent(["-"]) == [] && Last(["-"]) == "-";
  }

  lemma FirstGone(x: Json, items: seq<Json>, token: string)
    requires ListIndex(token) == 0
    ensures RemoveChild(Array([x] + items), token) == Array(items)
  {
    var all := [x] + items;
    assert all[..0] + all[1..] == items;
  }

  lemma DetachedDoc(doc: Json, d: Detached, token: string)
    requires doc.Array? && D.Removed(d) == if D.CanDetachName(doc, token) then Done(0, RemoveChild(doc, token)) else Undefined
    ensures d.Detached? && d.doc == RemoveChild(doc, token)
  {
    hide RemoveChild;
  }

  lemma DashIsZero()
    ensures ListIndex("-") == 0 && PathText(["-"]) == Join("", "-")
  {
    PathSnoc([], "-");
    assert [] + ["-"] == ["-"] && "-"[1..] == "";
  }

  // ---- Places: two paths part at a container if they name different children of it.

  predicate SameToken(v: Val, a: string, b: string) { if v.VObject? then Fold(a) == Fold(b) else a == b }

  predicate Apart(v: Val, p: Path, q: Path) {
    && p != [] && q != []
    && (SameToken(v, p[0], q[0]) ==> Child(v, p[0]).Some? && Apart(Child(v, p[0]).value, p[1..], q[1..]))
  }

  lemma SetChildElsewhere(v: Val, a: string, w: Val, b: string)
    requires Child(v, a).Some?
    ensures
      if SameToken(v, a, b) then Child(SetChild(v, a, w), b) == Some(w) && Child(v, b) == Child(v, a)
      else Child(SetChild(v, a, w), b) == Child(v, b)
  {
    if v.VArray? && Index(b).Some? {
      IndexIs(a);
      IndexIs(b);
    }
    hide Index;
  }

  lemma {:induction false} SetElsewhere(v: Val, p: Path, w: Val, q: Path)
    requires Look(v, p).Some? && Apart(v, p, q)
    ensures Look(Set(v, p, w), q) == Look(v, q)
    decreases p
  {
    var c := Child(v, p[0]).value;
    SetChildElsewhere(v, p[0], Set(c, p[1..], w), q[0]);
    hide Child, SetChild;
    if SameToken(v, p[0], q[0]) {
      SetElsewhere(c, p[1..], w, q[1..]);
    }
  }

  // What lies below a place.
  lemma {:induction false} SetBelow(v: Val, p: Path, w: Val, q: Path)
    requires Look(v, p).Some?
    ensures Look(Set(v, p, w), p + q) == Look(w, q) && Look(v, p + q) == Look(Look(v, p).value, q)
    decreases p
  {
    if p == [] {
      assert [] + q == q;
    } else {
      var c := Child(v, p[0]).value;
      assert (p + q)[1..] == p[1..] + q;
      SetChildLook(v, p[0], Set(c, p[1..], w));
      SetBelow(c, p[1..], w, q);
      hide Child, SetChild;
    }
  }

  // Two objects with the same members but one.
  ghost predicate SameBut(v: Val, w: Val, token: string) {
    && v.VObject? && w.VObject?
    && forall k :: k != Fold(token) ==>
         (k in v.fields <==> k in w.fields) && (k in v.fields ==> v.fields[k] == w.fields[k])
  }

  lemma {:induction false} MemberElsewhere(v: Val, p: Path, token: string, w: Val, q: Path)
    requires Look(v, p).Some? && SameBut(Look(v, p).value, w, token) && Apart(v, p + [token], q)
    ensures Look(Set(v, p, w), q) == Look(v, q)
    decreases p
  {
    if p == [] {
      assert [] + [token] == [token] && [token][1..] == [];
    } else {
      var c := Child(v, p[0]).value;
      assert (p + [token])[1..] == p[1..] + [token];
      SetChildElsewhere(v, p[0], Set(c, p[1..], w), q[0]);
      hide Child, SetChild, SameBut;
      if SameToken(v, p[0], q[0]) {
        MemberElsewhere(c, p[1..], token, w, q[1..]);
      }
    }
  }

  predicate InObject(v: Val, path: Path)
    requires path != []
  {
    Look(v, Parent(path)).Some? && Look(v, Parent(path)).value.VObject?
  }

  // Places that an edit at `path` does not touch: others of the same object, and all outside an array.
  predicate Untouched(v: Val, path: Path, q: Path)
    requires path != []
  {
    Apart(v, path, q) && (InObject(v, path) || Apart(v, Parent(path), q))
  }

  lemma ParentChanged(v: Val, path: Path, w: Val, q: Path)
    requires path != [] && Look(v, Parent(path)).Some?
    requires InObject(v, path) ==> SameBut(Look(v, Parent(path)).value, w, Last(path))
    ensures Look(Set(v, Parent(path), w), path) == Child(w, Last(path))
    ensures Untouched(v, path, q) ==> Look(Set(v, Parent(path), w), q) == Look(v, q)
  {
    hide Look, Set, Apart, Child, SameBut;
    assert path == Parent(path) + [Last(path)];
    SetLook(v, Parent(path), w, w);
    LookSnoc(Set(v, Parent(path), w), Parent(path), Last(path));
    if Untouched(v, path, q) {
      if InObject(v, path) {
        MemberElsewhere(v, Parent(path), Last(path), w, q);
      } else {
        SetElsewhere(v, Parent(path), w, q);
      }
    }
  }

  lemma Inserted(v: Val, token: string, x: Val)
    requires Insert(v, token, x).Some?
    ensures token != "-" || v.VObject? ==> Child(Insert(v, token, x).value, token) == Some(x)
    ensures v.VObject? ==> SameBut(v, Insert(v, token, x).value, token)
  {
  }

  /** After an add the place holds the value, and the others what they held. */
  lemma AddedPlaces(v: Val, path: Path, x: Val, q: Path)
    requires path != [] && Added(v, path, x).Some?
    ensures Last(path) != "-" || InObject(v, path) ==> Look(Added(v, path, x).value, path) == Some(x)
    ensures Untouched(v, path, q) ==> Look(Added(v, path, x).value, q) == Look(v, q)
  {
    hide Look, Set, Insert, Untouched, SameBut;
    var w := Look(v, Parent(path)).value;
    Inserted(w, Last(path), x);
    ParentChanged(v, path, Insert(w, Last(path), x).value, q);
  }

  /** In an array the new element stands at its index, and the others keep their order. */
  lemma AddedItem(v: Val, path: Path, x: Val, k: nat)
    requires path != [] && Added(v, path, x).Some? && Look(v, Parent(path)).value.VArray?
    ensures
      var items, r := Look(v, Parent(path)).value.items, Look(Added(v, path, x).value, Parent(path));
      var i := if Last(path) == "-" then |items| else Index(Last(path)).value;
      && r.Some? && r.value.VArray? && |r.value.items| == |items| + 1 && i <= |items| && r.value.items[i] == x
      && (k < i ==> r.value.items[k] == items[k])
      && (i <= k < |items| ==> r.value.items[k + 1] == items[k])
  {
    var w := Insert(Look(v, Parent(path)).value, Last(path), x).value;
    SetLook(v, Parent(path), w, w);
    hide Look, Set, Index;
  }

  lemma WasCut(v: Val, token: string)
    requires Cut(v, token).Some? && v.VObject?
    ensures Child(Cut(v, token).value, token) == None && SameBut(v, Cut(v, token).value, token)
  {
  }

  /** After a remove from an object the place is gone; the other places hold what they held. */
  lemma RemovedPlaces(v: Val, path: Path, q: Path)
    requires path != [] && Removed(v, path).Some?
    ensures InObject(v, path) ==> Look(Removed(v, path).value, path) == None
    ensures Untouched(v, path, q) ==> Look(Removed(v, path).value, q) == Look(v, q)
  {
    hide Look, Set, Cut, Child, Untouched, SameBut;
    var w := Look(v, Parent(path)).value;
    if w.VObject? {
      WasCut(w, Last(path));
    }
    ParentChanged(v, path, Cut(w, Last(path)).value, q);
  }

  /** After a move the place holds what was at `from`, which is gone; the others hold what they held. */
  lemma MovedPlaces(v: Val, from: Path, path: Path, q: Path)
    requires from != [] && path != [] && Moved(v, from, path).Some?
    ensures
      var u, r := Removed(v, from).value, Moved(v, from, path).value;
      && (Last(path) != "-" || InObject(u, path) ==> Look(r, path) == Look(v, from))
      && (InObject(v, from) && Untouched(u, path, from) ==> Look(r, from) == None)
      && (Untouched(v, from, q) && Untouched(u, path, q) ==> Look(r, q) == Look(v, q))
  {
    hide Look, Added, Removed, InObject, Untouched;
    var u, x := Removed(v, from).value, Look(v, from).value;
    RemovedPlaces(v, from, q);
    AddedPlaces(u, path, x, q);
    AddedPlaces(u, path, x, from);
  }

  // ---- Section 5: the operations of a patch, in order.

  datatype Request = Request(op: Op, path: Path, from: Path, value: Json)

  // The members may stand in any order, and others may stand beside them.
  predicate Requests(patch: Json, r: Request) {
    && GetObjectItem(patch, "op") == Some(String(OpName(r.op)))
    && GetObjectItem(patch, "path") == Some(String(PathText(r.path)))
    && GetObjectItem(patch, "from") == Some(String(PathText(r.from)))
    && GetObjectItem(patch, "value") == Some(r.value)
  }

  predicate HasPaths(r: Request) { r.path != [] && r.from != [] }

  function RfcPatch(v: Val, rs: seq<Request>): Option<Val>
    requires forall i :: 0 <= i < |rs| ==> HasPaths(rs[i])
    decreases rs
  {
    if rs == [] then Some(v)
    else
      assert HasPaths(rs[0]);
      match Rfc(v, rs[0].op, rs[0].path, rs[0].from, Canon(rs[0].value))
      case None => None
      case Some(w) => RfcPatch(w, rs[1..])
  }

  predicate NoObjects(t: Json) {
    match t
    case Object(_, _) => false
    case Array(items) => forall i :: 0 <= i < |items| ==> NoObjects(items[i])
    case _ => true
  }

  // A test with such a value sorts nothing.
  lemma {:induction false} ComparedPlain(a: Json, b: Json)
    requires NoObjects(b)
    ensures Compared(a, b) == a
    decreases a, 1
  {
    if a.Array? && b.Array? {
      ComparedPlainItems(a.items, b.items);
    }
  }

  lemma {:induction false} ComparedPlainItems(xs: seq<Json>, ys: seq<Json>)
    requires forall i :: 0 <= i < |ys| ==> NoObjects(ys[i])
    ensures ComparedItems(xs, ys) == xs
    decreases xs, 0
  {
    if xs != [] && ys != [] {
      ComparedPlain(xs[0], ys[0]);
      ComparedPlainItems(xs[1..], ys[1..]);
    }
  }

  lemma {:induction false} ReplaceSame(t: Json, at: Location)
    requires ValidAt(t, at)
    ensures ReplaceAt(t, at, NodeAt(t, at)) == t
    decreases at
  {
    if at != [] {
      ReplaceSame(Children(t)[at[0]], at[1..]);
      D.WithChildTwice(t, at[0], t, t);
    }
  }

  lemma TestKeepsClean(doc: Json, path: Path, from: Path, value: Json)
    requires NoObjects(value)
    ensures
      var r := Operate(doc, Test, path, from, value);
      r.Done? ==> r.doc == doc
  {
    GetPointerValid(doc, PathText(path));
    var at := GetPointer(doc, PathText(path));
    hide PathText, GetPointer, ReplaceAt, NodeAt, Compare.Compare, Compared;
    if at.Some? {
      ComparedPlain(NodeAt(doc, at.value), value);
      ReplaceSame(doc, at.value);
    }
  }

  lemma RequestApplied(doc: Json, patch: Json, r: Request)
    requires Requests(patch, r)
    ensures ApplyPatch(doc, patch) == Operate(doc, r.op, r.path, r.from, r.value)
  {
    hide ApplyOperation, PathText, GetObjectItem;
  }

  predicate RequestOk(r: Request) {
    CaseDistinct(r.value) && (r.op == Test ==> NoObjects(r.value))
  }

  lemma RequestKeeps(doc: Json, r: Request)
    requires Clean(doc) && CaseDistinct(doc) && HasPaths(r) && RequestOk(r)
    requires Rfc(Canon(doc), r.op, r.path, r.from, Canon(r.value)).Some?
    ensures
      var o := Operate(doc, r.op, r.path, r.from, r.value);
      && o.Done? && o.code == 0 && Clean(o.doc) && CaseDistinct(o.doc)
      && Canon(o.doc) == Rfc(Canon(doc), r.op, r.path, r.from, Canon(r.value)).value
  {
    hide Operate, Canon, CaseDistinct, Clean, NoObjects;
    RfcApplied(doc, r.op, r.path, r.from, r.value);
    if r.op == Test {
      TestKeepsClean(doc, r.path, r.from, r.value);
    } else {
      RfcIsAnswered(Canon(doc), r.op, r.path, r.from, Canon(r.value));
      hide Rfc;
      Applied(doc, r.op, r.path, r.from, r.value);
    }
  }

  /** A patch whose operations all have a result is carried out as a whole. */
  lemma {:induction false} PatchApplied(doc: Json, patches: seq<Json>, rs: seq<Request>)
    requires Clean(doc) && CaseDistinct(doc) && |patches| == |rs|
    requires forall i :: 0 <= i < |rs| ==> HasPaths(rs[i]) && RequestOk(rs[i]) && Requests(patches[i], rs[i])
    requires RfcPatch(Canon(doc), rs).Some?
    ensures
      var r := ApplyPatches(doc, Array(patches));
      r.Done? && r.code == 0 && Canon(r.doc) == RfcPatch(Canon(doc), rs).value
    decreases rs
  {
    if rs != [] {
      RequestApplied(doc, patches[0], rs[0]);
      RequestKeeps(doc, rs[0]);
      var d := ApplyPatch(doc, patches[0]).doc;
      hide Operate, Canon, CaseDistinct, Clean, Rfc, Requests, RequestOk, ApplyPatch;
      PatchApplied(d, patches[1..], rs[1..]);
    }
  }
}
