/**
  JSON Patch (RFC 6902) as cJSON_Utils applies and generates it.
 */
module Patch {
  import opened Text
  import opened Json
  import opened Pointer
  import opened Sort
  import opened Compare

  // ----- application -----

  // `Undefined` marks the paths on which the C code dereferences NULL, leaves its string, or makes a
  // list of children a circle.
  datatype Outcome = Undefined | Done(code: int, doc: Json)

  datatype Op = Add | Remove | Replace | Move | Copy | Test

  function OpName(op: Op): string {
    match op
    case Add => "add"
    case Remove => "remove"
    case Replace => "replace"
    case Move => "move"
    case Copy => "copy"
    case Test => "test"
  }

  function OpOf(s: string): Option<Op> {
    if s == "add" then Some(Add)
    else if s == "remove" then Some(Remove)
    else if s == "replace" then Some(Replace)
    else if s == "move" then Some(Move)
    else if s == "copy" then Some(Copy)
    else if s == "test" then Some(Test)
    else None
  }

  // strrchr(p, '/'), or the length of p.
  function LastSlash(p: string): (i: nat)
    ensures i <= |p|
    ensures i == |p| <==> '/' !in p
    ensures i < |p| ==> p[i] == '/' && '/' !in p[i + 1..]
  {
    if p == [] then 0
    else
      assert p == p[..|p| - 1] + [p[|p| - 1]];
      var i := LastSlash(p[..|p| - 1]);
      if p[|p| - 1] == '/' then |p| - 1
      else if i == |p| - 1 then |p|
      else
        assert p[i + 1..] == p[..|p| - 1][i + 1..] + [p[|p| - 1]];
        i
  }

  predicate IsSpace(c: char) { c == ' ' || '\t' <= c <= '\r' }

  function Atoi(s: string): int {
    if s != [] && IsSpace(s[0]) then Atoi(s[1..])
    else
      var digits := if s != [] && (s[0] == '-' || s[0] == '+') then s[1..] else s;
      var value: int := DecimalValue(digits[..DigitRun(digits)]);
      if s != [] && s[0] == '-' then -value else value
  }

  // The list functions stop counting at zero, so a negative index means the first child.
  function ListIndex(s: string): nat {
    if Atoi(s) < 0 then 0 else Atoi(s)
  }

  function ChildIndex(parent: Json, child: string): nat {
    match parent
    case Array(_) => ListIndex(child)
    case Object(ms, _) => IndexOf(ms, Fold(child))
    case _ => 0
  }

  function RemoveChild(parent: Json, child: string): Json {
    match parent
    case Array(items) => Array(Without(items, ChildIndex(parent, child)))
    case Object(ms, stale) => Object(Without(ms, ChildIndex(parent, child)), stale)
    case _ => parent
  }

  function AddChild(parent: Json, child: string, value: Json): Json {
    match parent
    case Array(items) =>
      Array(if child == "-" then items + [value] else InsertAt(items, ListIndex(child), value))
    case Object(_, _) => PutKey(parent, child, value)
    case _ => parent
  }

  // Where a path leads: the parent that its last '/' splits off, and the decoded last token.
  datatype Target = NoTarget | NoParent | Target(at: Location, child: string)

  function Resolve(doc: Json, path: string): (r: Target)
    ensures r.Target? ==> ValidAt(doc, r.at)
  {
    var i := LastSlash(path);
    if i == |path| then NoTarget
    else
      GetPointerValid(doc, path[..i]);
      MakeTarget(GetPointer(doc, path[..i]), Decode(path[i + 1..]))
  }

  function MakeTarget(parent: Option<Location>, child: Option<string>): Target {
    if child.None? then NoTarget
    else if parent.None? then NoParent
    else Target(parent.value, child.value)
  }

  datatype Detached = DetachUndefined | Detached(item: Option<Json>, doc: Json)

  // cJSONUtils_PatchDetach
  function PatchDetach(doc: Json, path: string): Detached {
    match Resolve(doc, path)
    case NoTarget => DetachUndefined
    case NoParent => Detached(None, doc)
    case Target(at, child) =>
      var parent := NodeAt(doc, at);
      var i := ChildIndex(parent, child);
      if !CanDetach(parent, i) then DetachUndefined
      else Detached(if i < |Children(parent)| then Some(Children(parent)[i]) else None,
                    ReplaceAt(doc, at, RemoveChild(parent, child)))
  }

  // The end of cJSONUtils_ApplyPatch. An object loses the member that it has under the key.
  function AddAt(doc: Json, path: string, value: Json): Outcome {
    match Resolve(doc, path)
    case NoTarget => Undefined
    case NoParent => Done(9, doc)
    case Target(at, child) =>
      var parent := NodeAt(doc, at);
      if parent.Object? && !CanDetach(parent, ChildIndex(parent, child)) then Undefined
      else Done(0, ReplaceAt(doc, at, AddChild(parent, child, value)))
  }

  function AddValue(doc: Json, path: string, value: Option<Json>): Outcome {
    match value
    case None => Done(7, doc)
    case Some(v) => AddAt(doc, path, Duplicate(v))
  }

  // cJSONUtils_ApplyPatch
  function ApplyPatch(doc: Json, patch: Json): Outcome {
    match (GetObjectItem(patch, "op"), GetObjectItem(patch, "path"))
    case (Some(op), Some(path)) =>
      if !op.String? then Undefined
      else if OpOf(op.text).None? then Done(3, doc)
      else if !path.String? then Undefined
      else ApplyOperation(doc, OpOf(op.text).value, path.text, GetObjectItem(patch, "from"), GetObjectItem(patch, "value"))
    case _ => Done(2, doc)
  }

  function ApplyOperation(doc: Json, op: Op, path: string, from: Option<Json>, value: Option<Json>): Outcome {
    match op
    case Add => AddValue(doc, path, value)
    case Remove =>
      var d := PatchDetach(doc, path);
      if d.DetachUndefined? then Undefined else Done(0, d.doc)
    case Replace =>
      var d := PatchDetach(doc, path);
      if d.DetachUndefined? then Undefined else AddValue(d.doc, path, value)
    case Test =>
      GetPointerValid(doc, path);
      var at := GetPointer(doc, path);
      if at.None? || value.None? then Undefined
      else
        var node := NodeAt(doc, at.value);
        Done(Compare.Compare(node, value.value), ReplaceAt(doc, at.value, Compared(node, value.value)))
    case Move =>
      if from.None? then Done(4, doc)
      else if !from.value.String? then Undefined
      else
        var d := PatchDetach(doc, from.value.text);
        if d.DetachUndefined? then Undefined
        else if d.item.None? then Done(5, d.doc)
        else AddAt(d.doc, path, d.item.value)
    case Copy =>
      if from.None? then Done(4, doc)
      else if !from.value.String? then Undefined
      else
        GetPointerValid(doc, from.value.text);
        var at := GetPointer(doc, from.value.text);
        if at.None? then Done(5, doc) else AddAt(doc, path, Duplicate(NodeAt(doc, at.value)))
  }

  lemma {:induction false} CleanAt(t: Json, at: Location, x: Json)
    requires ValidAt(t, at) && Clean(t)
    ensures Clean(NodeAt(t, at)) && (Clean(x) ==> Clean(ReplaceAt(t, at, x)))
  {
    if at != [] {
      assert forall m <- (if t.Object? then t.members else []) :: Clean(m.value);
      CleanAt(Children(t)[at[0]], at[1..], x);
    }
  }

  lemma CleanAddAt(doc: Json, path: string, value: Json)
    requires Clean(doc) && Clean(value)
    ensures var r := AddAt(doc, path, value);
      r.Done? ==> Clean(r.doc)
  {
    var target := Resolve(doc, path);
    if target.Target? {
      var parent := NodeAt(doc, target.at);
      CleanAt(doc, target.at, parent);
      CleanAt(doc, target.at, AddChild(parent, target.child, value));
    }
  }

  lemma CleanWithout(t: Json, child: string)
    requires Clean(t)
    ensures Clean(RemoveChild(t, child)) && forall i :: 0 <= i < |Children(t)| ==> Clean(Children(t)[i])
  {
    assert forall m <- (if t.Object? then t.members else []) :: Clean(m.value);
  }

  lemma CleanDetach(doc: Json, path: string)
    requires Clean(doc)
    ensures var d := PatchDetach(doc, path);
      d.Detached? ==> Clean(d.doc) && (d.item.Some? ==> Clean(d.item.value))
  {
    hide Resolve, ReplaceAt, Clean, RemoveChild;
    var target := Resolve(doc, path);
    if target.Target? {
      var parent := NodeAt(doc, target.at);
      CleanAt(doc, target.at, parent);
      CleanWithout(parent, target.child);
      CleanAt(doc, target.at, RemoveChild(parent, target.child));
    }
  }

  // Only a `test` makes links stale.
  lemma CleanStays(doc: Json, op: Op, path: string, from: Option<Json>, value: Option<Json>)
    requires Clean(doc) && op != Test
    ensures var r := ApplyOperation(doc, op, path, from, value);
      r.Done? ==> Clean(r.doc)
  {
    hide AddAt, PatchDetach;
    CleanDetach(doc, path);
    if value.Some? {
      DuplicateIsClean(value.value);
      CleanAddAt(doc, path, Duplicate(value.value));
      if PatchDetach(doc, path).Detached? {
        CleanAddAt(PatchDetach(doc, path).doc, path, Duplicate(value.value));
      }
    }
    if from.Some? && from.value.String? {
      CleanDetach(doc, from.value.text);
      var d, at := PatchDetach(doc, from.value.text), GetPointer(doc, from.value.text);
      if d.Detached? && d.item.Some? {
        CleanAddAt(d.doc, path, d.item.value);
      }
      if at.Some? {
        GetPointerValid(doc, from.value.text);
        DuplicateIsClean(NodeAt(doc, at.value));
        CleanAddAt(doc, path, Duplicate(NodeAt(doc, at.value)));
      }
    }
  }

  // cJSONUtils_ApplyPatches: stops at the first error.
  function ApplyEach(doc: Json, patches: seq<Json>): Outcome
    decreases patches
  {
    if patches == [] then Done(0, doc)
    else
      var r := ApplyPatch(doc, patches[0]);
      if r.Undefined? || r.code != 0 then r else ApplyEach(r.doc, patches[1..])
  }

  function ApplyPatches(doc: Json, patches: Json): Outcome {
    if patches.Array? then ApplyEach(doc, patches.items) else Done(1, doc)
  }

  // ----- generation -----

  datatype Edit = Edit(op: Op, path: string, value: Option<Json>)

  // cJSONUtils_GeneratePatch, with the suffix already joined to the path.
  function MakePatch(e: Edit): Json {
    Object([Member("op", String(OpName(e.op))), Member("path", String(e.path))]
           + match e.value case None => [] case Some(v) => [Member("value", Duplicate(v))])
  }

  function MakePatches(es: seq<Edit>): (r: seq<Json>)
    ensures |r| == |es|
  {
    if es == [] then [] else [MakePatch(es[0])] + MakePatches(es[1..])
  }

  function Join(path: string, suffix: string): string { path + "/" + Encode(suffix) }

  // cJSONUtils_CompareToPatch
  function CompareToPatch(path: string, from: Json, to: Json): seq<Edit>
    decreases from, 1, 0
  {
    if !SameKind(from, to) then [Edit(Replace, path, Some(to))]
    else
      match from
      case Number(i, d) =>
        if i != to.valueint || d != to.valuedouble then [Edit(Replace, path, Some(to))] else []
      case String(s) => if s != to.text then [Edit(Replace, path, Some(to))] else []
      case Array(items) => DiffItems(path, 0, items, to.items)
      case Object(ms, _) =>
        SortListSorts(ms);
        DiffMembers(path, from, SortList(ms), SortList(to.members))
      case _ => []
  }

  function DiffItems(path: string, c: nat, from: seq<Json>, to: seq<Json>): seq<Edit>
    decreases from, 0, 0
  {
    if from == [] then Appends(path, to)
    else if to == [] then Removes(path, c, |from|)
    else CompareToPatch(path + "/" + Decimal(c), from[0], to[0]) + DiffItems(path, c + 1, from[1..], to[1..])
  }

  // The indices ascend although every removal shifts what follows it.
  function Removes(path: string, c: nat, n: nat): seq<Edit>
    decreases n
  {
    if n == 0 then [] else [Edit(Remove, Join(path, Decimal(c)), None)] + Removes(path, c + 1, n - 1)
  }

  function Appends(path: string, to: seq<Json>): seq<Edit> {
    if to == [] then [] else [Edit(Add, Join(path, "-"), Some(to[0]))] + Appends(path, to[1..])
  }

  function DiffMembers(path: string, ghost from: Json, a: seq<Member>, b: seq<Member>): seq<Edit>
    requires from.Object? && forall m <- a :: m in from.members
    decreases from, 0, |a| + |b|
  {
    if a == [] && b == [] then []
    else
      var diff := if a == [] then 1 else if b == [] then -1 else CaseCmp(a[0].key, b[0].key);
      if diff == 0 then
        assert a[0] in from.members;
        CompareToPatch(Join(path, a[0].key), a[0].value, b[0].value) + DiffMembers(path, from, a[1..], b[1..])
      else if diff < 0 then
        [Edit(Remove, Join(path, a[0].key), None)] + DiffMembers(path, from, a[1..], b)
      else
        [Edit(Add, Join(path, b[0].key), Some(b[0].value))] + DiffMembers(path, from, a, b[1..])
  }

  // What the generator leaves of `from`: the objects that it walked through are sorted.
  function Diffed(from: Json, to: Json): Json
    decreases from, 1, 0
  {
    if from.Array? && to.Array? then Array(DiffedItems(from.items, to.items))
    else if from.Object? && to.Object? then
      SortListSorts(from.members);
      var s := SortObject(from);
      s.(members := DiffedMembers(from, s.members, SortList(to.members)))
    else from
  }

  function DiffedItems(from: seq<Json>, to: seq<Json>): (r: seq<Json>)
    ensures |r| == |from|
    decreases from, 0, 0
  {
    if from == [] || to == [] then from
    else [Diffed(from[0], to[0])] + DiffedItems(from[1..], to[1..])
  }

  function DiffedMembers(ghost from: Json, a: seq<Member>, b: seq<Member>): (r: seq<Member>)
    requires from.Object? && forall m <- a :: m in from.members
    ensures |r| == |a|
    ensures forall i :: 0 <= i < |a| ==> r[i].key == a[i].key
    decreases from, 0, |a| + |b|
  {
    if a == [] || b == [] then a
    else
      var diff := CaseCmp(a[0].key, b[0].key);
      if diff == 0 then
        assert a[0] in from.members;
        [Member(a[0].key, Diffed(a[0].value, b[0].value))] + DiffedMembers(from, a[1..], b[1..])
      else if diff < 0 then [a[0]] + DiffedMembers(from, a[1..], b)
      else DiffedMembers(from, a, b[1..])
  }

  function GeneratePatches(from: Json, to: Json): Json { Array(MakePatches(CompareToPatch("", from, to))) }
}
