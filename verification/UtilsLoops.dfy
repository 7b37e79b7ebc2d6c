/**
  The loops of cJSON_Utils in the form the C code has them, proved against the functions of the
  modules above.
 */
module UtilsLoops {
  import opened Text
  import opened Json
  import opened Pointer
  import opened Sort
  import opened Patch
  import M = MergePatch

  // cJSONUtils_InplaceDecodePointerString: the write cursor stays behind the read cursor. `n` is
  // the length of the string before, `len` after.
  method DecodeInPlace(a: array<char>, n: nat) returns (len: nat)
    requires n <= a.Length && Decode(a[..n]).Some?
    modifies a
    ensures len <= n && a[..len] == Decode(old(a[..n])).value
    ensures forall i :: n <= i < a.Length ==> a[i] == old(a[i])
  {
    var s := 0;
    len := 0;
    ghost var text, out := a[..n], "";
    DecodeEnds(text);
    hide Decode;
    while s < n
      invariant len == |out| <= s <= n && a[..len] == out
      invariant forall i :: s <= i < a.Length ==> a[i] == old(a[i])
      invariant Decode(text[s..]).Some? && out + Decode(text[s..]).value == Decode(text).value
    {
      DecodeStep(text, s);
      var width := if a[s] != '~' then 1 else 2;
      var c := if a[s] != '~' then a[s] else if a[s + 1] == '0' then '~' else '/';
      a[len] := c;
      Shift(out, c, Decode(text[s + width..]).value);
      s, len, out := s + width, len + 1, out + [c];
    }
  }

  lemma Shift(out: string, c: char, rest: string)
    ensures out + ([c] + rest) == (out + [c]) + rest
  {
  }

  lemma DecodeEnds(text: string)
    ensures Decode(text[|text|..]) == Some([])
    ensures text[0..] == text && (Decode(text).Some? ==> "" + Decode(text).value == Decode(text).value)
  {
  }

  lemma DecodeStep(text: string, s: nat)
    requires s < |text| && Decode(text[s..]).Some?
    ensures text[s] != '~' ==>
      (Decode(text[s + 1..]).Some? && Decode(text[s..]).value == [text[s]] + Decode(text[s + 1..]).value)
    ensures text[s] == '~' ==>
      (s + 1 < |text| && Decode(text[s + 2..]).Some?
       && Decode(text[s..]).value == [if text[s + 1] == '0' then '~' else '/'] + Decode(text[s + 2..]).value)
  {
    assert text[s..][1..] == text[s + 1..];
    assert s + 1 < |text| ==> text[s..][2..] == text[s + 2..];
  }

  // cJSONUtils_GetPointer: one cursor into the pointer, one into the tree.
  method FollowPointer(root: Json, pointer: string) returns (at: Option<Location>)
    ensures at == GetPointer(root, pointer)
  {
    var node, here: Location, p := root, [], pointer;
    if GetPointer(root, p).Some? {
      assert [] + GetPointer(root, p).value == GetPointer(root, p).value;
    }
    while p != [] && p[0] == '/'
      invariant Below(here, GetPointer(node, p)) == GetPointer(root, pointer)
      decreases |p|
    {
      var token := p[1..];
      var i;
      if node.Array? {
        var n := DigitRun(token);
        if !AtTokenEnd(token[n..]) {
          return None;
        }
        i, p := DecimalValue(token[..n]), token[n..];
      } else if node.Object? {
        i := 0;
        while i < |node.members| && !TokenMatches(node.members[i].key, token)
          invariant i <= |node.members|
          invariant FindMember(node.members, token) == i + FindMember(node.members[i..], token)
        {
          i := i + 1;
        }
        p := SkipToken(token);
      } else {
        return None;
      }
      if i >= |Children(node)| {
        return None;
      }
      BelowChild(here, i, GetPointer(Children(node)[i], p));
      node, here := Children(node)[i], here + [i];
    }
    at := Some(here);
    assert here + [] == here;
  }

  function Below(here: Location, at: Option<Location>): Option<Location> {
    if at.None? then None else Some(here + at.value)
  }

  lemma BelowChild(here: Location, i: nat, at: Option<Location>)
    ensures Below(here, if at.None? then None else Some([i] + at.value)) == Below(here + [i], at)
  {
    if at.Some? {
      assert here + ([i] + at.value) == (here + [i]) + at.value;
    }
  }

  // cJSONUtils_ApplyPatches works on the document itself.
  class Document {
    var root: Json

    constructor (root: Json)
      ensures this.root == root
    {
      this.root := root;
    }

    // The error code, or None where the C code leaves defined behaviour.
    method ApplyPatches(patches: Json) returns (code: Option<int>)
      modifies this
      ensures match Patch.ApplyPatches(old(root), patches)
              case Undefined => code == None
              case Done(c, doc) => code == Some(c) && root == doc
    {
      if !patches.Array? {
        return Some(1);
      }
      var i := 0;
      while i < |patches.items|
        invariant i <= |patches.items|
        invariant ApplyEach(root, patches.items[i..]) == ApplyEach(old(root), patches.items)
      {
        var r := ApplyPatch(root, patches.items[i]);
        assert patches.items[i..][1..] == patches.items[i + 1..];
        if r.Undefined? {
          return None;
        }
        root := r.doc;
        if r.code != 0 {
          return Some(r.code);
        }
        i := i + 1;
      }
      code := Some(0);
    }
  }

  // cJSONUtils_CompareToPatch appends to the list of patches as it walks both trees. `left` is
  // what the in-place sorting makes of `from`.
  method CompareToPatchLoop(patches: seq<Edit>, path: string, from: Json, to: Json) returns (r: seq<Edit>, left: Json)
    ensures r == patches + CompareToPatch(path, from, to) && left == Diffed(from, to)
    decreases from, 1
  {
    left := from;
    if !SameKind(from, to) {
      return patches + [Edit(Replace, path, Some(to))], from;
    }
    match from {
      case Number(i, d) =>
        r := if i != to.valueint || d != to.valuedouble then patches + [Edit(Replace, path, Some(to))] else patches;
      case String(s) =>
        r := if s != to.text then patches + [Edit(Replace, path, Some(to))] else patches;
      case Array(items) =>
        var xs;
        r, xs := DiffItemsLoop(patches, path, items, to.items);
        left := Array(xs);
      case Object(ms, _) =>
        SortListSorts(ms);
        var sorted, ys := SortObject(from), SortList(to.members);
        var xs;
        r, xs := DiffMembersLoop(patches, path, from, sorted.members, ys);
        left := sorted.(members := xs);
      case _ =>
        r := patches;
    }
  }

  method DiffItemsLoop(patches: seq<Edit>, path: string, from: seq<Json>, to: seq<Json>)
    returns (r: seq<Edit>, left: seq<Json>)
    ensures r == patches + DiffItems(path, 0, from, to) && left == DiffedItems(from, to)
    decreases from, 0, 0
  {
    var c := 0;
    r, left := patches, [];
    while c < |from| && c < |to|
      invariant c <= |from| && c <= |to|
      invariant r + DiffItems(path, c, from[c..], to[c..]) == patches + DiffItems(path, 0, from, to)
      invariant left + DiffedItems(from[c..], to[c..]) == DiffedItems(from, to)
    {
      ghost var before := r;
      var newpath := path + "/" + Decimal(c);
      assert from[c..][1..] == from[c + 1..] && to[c..][1..] == to[c + 1..];
      var x;
      r, x := CompareToPatchLoop(r, newpath, from[c], to[c]);
      ConcatAssoc(before, CompareToPatch(newpath, from[c], to[c]), DiffItems(path, c + 1, from[c + 1..], to[c + 1..]));
      ConcatAssoc(left, [x], DiffedItems(from[c + 1..], to[c + 1..]));
      c, left := c + 1, left + [x];
    }
    left := left + from[c..];
    if c < |from| {
      r := RemovesLoop(r, path, c, |from|);
    } else {
      r := AppendsLoop(r, path, to[c..]);
    }
  }

  // Remove what `from` has left over ...
  method RemovesLoop(patches: seq<Edit>, path: string, start: nat, end: nat) returns (r: seq<Edit>)
    requires start <= end
    ensures r == patches + Removes(path, start, end - start)
  {
    r := patches;
    for c := start to end
      invariant r + Removes(path, c, end - c) == patches + Removes(path, start, end - start)
    {
      ConcatAssoc(r, [Edit(Remove, Join(path, Decimal(c)), None)], Removes(path, c + 1, end - c - 1));
      r := r + [Edit(Remove, Join(path, Decimal(c)), None)];
    }
  }

  // ... or append what `to` has left over.
  method AppendsLoop(patches: seq<Edit>, path: string, to: seq<Json>) returns (r: seq<Edit>)
    ensures r == patches + Appends(path, to)
  {
    r := patches;
    for c := 0 to |to|
      invariant r + Appends(path, to[c..]) == patches + Appends(path, to)
    {
      assert to[c..][1..] == to[c + 1..];
      ConcatAssoc(r, [Edit(Add, Join(path, "-"), Some(to[c]))], Appends(path, to[c + 1..]));
      r := r + [Edit(Add, Join(path, "-"), Some(to[c]))];
    }
  }

  // One round of the walk over two member lists.
  method DiffRound(patches: seq<Edit>, seen: seq<Member>, path: string, ghost from: Json, a: seq<Member>, b: seq<Member>)
    returns (r: seq<Edit>, left: seq<Member>, a': seq<Member>, b': seq<Member>)
    requires from.Object? && (forall m <- a :: m in from.members) && (a != [] || b != [])
    ensures |a'| + |b'| < |a| + |b| && forall m <- a' :: m in from.members
    ensures r + DiffMembers(path, from, a', b') == patches + DiffMembers(path, from, a, b)
    ensures left + DiffedMembers(from, a', b') == seen + DiffedMembers(from, a, b)
    decreases from, 0, |a| + |b|, 0
  {
    hide CompareToPatch, Diffed, Encode, CaseCmp;
    r, left, a', b' := patches, seen, a, b;
    var diff := if a == [] then 1 else if b == [] then -1 else CaseCmp(a[0].key, b[0].key);
    if diff == 0 {
      assert a[0] in from.members;
      var x;
      r, x := CompareToPatchLoop(r, Join(path, a[0].key), a[0].value, b[0].value);
      left, a', b' := seen + [Member(a[0].key, x)], a[1..], b[1..];
      ConcatAssoc(patches, CompareToPatch(Join(path, a[0].key), a[0].value, b[0].value), DiffMembers(path, from, a', b'));
      ConcatAssoc(seen, [Member(a[0].key, x)], DiffedMembers(from, a', b'));
    } else if diff < 0 {
      var e := Edit(Remove, Join(path, a[0].key), None);
      r, left, a' := patches + [e], seen + [a[0]], a[1..];
      ConcatAssoc(patches, [e], DiffMembers(path, from, a', b));
      ConcatAssoc(seen, [a[0]], DiffedMembers(from, a', b));
      assert b == [] ==> a == [a[0]] + DiffedMembers(from, a', b);
    } else {
      var e := Edit(Add, Join(path, b[0].key), Some(b[0].value));
      r, b' := patches + [e], b[1..];
      ConcatAssoc(patches, [e], DiffMembers(path, from, a, b'));
    }
  }

  method DiffMembersLoop(patches: seq<Edit>, path: string, ghost from: Json, a: seq<Member>, b: seq<Member>)
    returns (r: seq<Edit>, left: seq<Member>)
    requires from.Object? && forall m <- a :: m in from.members
    ensures r == patches + DiffMembers(path, from, a, b) && left == DiffedMembers(from, a, b)
    decreases from, 0, |a| + |b|, 1
  {
    hide DiffMembers, DiffedMembers;
    var x, y := a, b;
    r, left := patches, [];
    while x != [] || y != []
      invariant |x| + |y| <= |a| + |b| && forall m <- x :: m in from.members
      invariant r + DiffMembers(path, from, x, y) == patches + DiffMembers(path, from, a, b)
      invariant left + DiffedMembers(from, x, y) == DiffedMembers(from, a, b)
      decreases |x| + |y|
    {
      r, left, x, y := DiffRound(r, left, path, from, x, y);
    }
    NothingLeft(path, from, x, y);
  }

  lemma NothingLeft(path: string, from: Json, a: seq<Member>, b: seq<Member>)
    requires a == [] && b == [] && from.Object?
    ensures DiffMembers(path, from, a, b) == [] && DiffedMembers(from, a, b) == []
  {
  }

  // cJSONUtils_GeneratePatches sorts its source in place.
  method GeneratePatches(from: Document, to: Json) returns (patches: Json)
    modifies from
    ensures patches == Patch.GeneratePatches(old(from.root), to) && from.root == Diffed(old(from.root), to)
  {
    var es, left := CompareToPatchLoop([], "", from.root, to);
    assert [] + CompareToPatch("", from.root, to) == CompareToPatch("", from.root, to);
    from.root := left;
    patches := Array(MakePatches(es));
  }

  // One round of the walk of cJSONUtils_GenerateMergePatch.
  method MergeRound(patch: seq<Member>, seen: seq<Member>, ghost from: Json, a: seq<Member>, b: seq<Member>)
    returns (r: seq<Member>, left: seq<Member>, a': seq<Member>, b': seq<Member>)
    requires from.Object? && (forall m <- a :: m in from.members) && (a != [] || b != [])
    ensures |a'| + |b'| < |a| + |b| && forall m <- a' :: m in from.members
    ensures r + M.GenerateMembers(from, a', b') == patch + M.GenerateMembers(from, a, b)
    ensures left + M.WalkedMembers(from, a', b') == seen + M.WalkedMembers(from, a, b)
    decreases from, 0, |a| + |b|, 0
  {
    hide M.GenerateFor, M.Walked, Compare.Compare, Compare.Compared, StrCmp, Duplicate;
    r, left, a', b' := patch, seen, a, b;
    var compare := if a == [] then 1 else if b == [] then -1 else StrCmp(a[0].key, b[0].key);
    ghost var added;
    if compare < 0 {
      added := [Member(a[0].key, Null)];
      r, left, a' := patch + [Member(a[0].key, Null)], seen + [a[0]], a[1..];
      ConcatAssoc(seen, [a[0]], M.WalkedMembers(from, a', b));
      assert b == [] ==> a == [a[0]] + M.WalkedMembers(from, a', b);
    } else if compare > 0 {
      added := [Member(b[0].key, Duplicate(b[0].value))];
      r, b' := patch + [Member(b[0].key, Duplicate(b[0].value))], b[1..];
    } else {
      assert a[0] in from.members;
      added := M.GenerateMember(from, a[0], b[0]);
      var p, v := MergePair(a[0].value, b[0].value);
      r := if p.Some? then patch + [Member(b[0].key, p.value)] else patch;
      left, a', b' := seen + [Member(a[0].key, v)], a[1..], b[1..];
      ConcatAssoc(seen, [Member(a[0].key, v)], M.WalkedMembers(from, a', b'));
      assert patch + added == r;
    }
    ConcatAssoc(patch, added, M.GenerateMembers(from, a', b'));
  }

  // What two members with the same key add to the patch, and what is left of the first one.
  method MergePair(x: Json, y: Json) returns (p: Option<Json>, v: Json)
    ensures p == if Compare.Compare(x, y) == 0 then None else M.GenerateFor(x, y)
    ensures v == M.WalkedPair(x, y)
    decreases x, 2
  {
    if Compare.Compare(x, y) == 0 {
      return None, Compare.Compared(x, y);
    }
    p, v := GenerateMergeLoop(x, y);
    if !x.Object? || !y.Object? {
      v := Compare.Compared(x, y);
    }
  }

  method MergeMembersLoop(ghost from: Json, a: seq<Member>, b: seq<Member>) returns (patch: seq<Member>, left: seq<Member>)
    requires from.Object? && forall m <- a :: m in from.members
    ensures patch == M.GenerateMembers(from, a, b) && left == M.WalkedMembers(from, a, b)
    decreases from, 0, |a| + |b|, 1
  {
    hide M.GenerateMembers, M.WalkedMembers;
    var x, y := a, b;
    patch, left := [], [];
    assert [] + M.GenerateMembers(from, a, b) == M.GenerateMembers(from, a, b);
    assert [] + M.WalkedMembers(from, a, b) == M.WalkedMembers(from, a, b);
    while x != [] || y != []
      invariant |x| + |y| <= |a| + |b| && forall m <- x :: m in from.members
      invariant patch + M.GenerateMembers(from, x, y) == M.GenerateMembers(from, a, b)
      invariant left + M.WalkedMembers(from, x, y) == M.WalkedMembers(from, a, b)
      decreases |x| + |y|
    {
      patch, left, x, y := MergeRound(patch, left, from, x, y);
    }
    NothingMerged(from, x, y);
  }

  // cJSONUtils_GenerateMergePatch for two trees; `left` is what the sorting makes of `from`.
  method GenerateMergeLoop(from: Json, to: Json) returns (patch: Option<Json>, left: Json)
    ensures patch == M.GenerateFor(from, to) && left == M.Walked(from, to)
    decreases from, 1
  {
    if !to.Object? || !from.Object? {
      return Some(Duplicate(to)), from;
    }
    hide M.GenerateMembers, M.WalkedMembers;
    SortListSorts(from.members);
    var sorted := SortObject(from);
    var ms, seen := MergeMembersLoop(from, sorted.members, SortList(to.members));
    patch := if ms == [] then None else Some(Object(ms));
    left := sorted.(members := seen);
  }

  lemma NothingMerged(from: Json, a: seq<Member>, b: seq<Member>)
    requires a == [] && b == [] && from.Object?
    ensures M.GenerateMembers(from, a, b) == [] && M.WalkedMembers(from, a, b) == []
  {
  }
}
