/**
  Printing into a growing buffer: `ensure`, `update` and the printers with a `printbuffer`, proved to
  write the text that the printers without one return.
 */
module JsonBuffer {
  import opened Text
  import opened Json
  import opened JsonText
  import opened JsonString

  // The largest buffer: `pow2gt` must not leave the `int` range.
  const LIMIT: nat := 0x4000_0000

  // Bitwise or.
  function Or(a: nat, b: nat): (r: nat)
    ensures a <= r && b <= r
    decreases a + b
  {
    if a == 0 && b == 0 then 0
    else 2 * Or(a / 2, b / 2) + (if a % 2 == 1 || b % 2 == 1 then 1 else 0)
  }

  lemma {:induction false} OrBound(a: nat, b: nat, k: nat)
    requires a < Power2(k) && b < Power2(k)
    ensures Or(a, b) < Power2(k)
    decreases k
  {
    if k > 0 {
      OrBound(a / 2, b / 2, k - 1);
    }
  }

  function Power2(k: nat): nat { if k == 0 then 1 else 2 * Power2(k - 1) }

  lemma Power30()
    ensures Power2(30) == LIMIT
  {
    assert Power2(10) == 1024;
    assert Power2(20) == 1024 * Power2(10);
    assert Power2(30) == 1024 * Power2(20);
  }

  // `pow2gt` for 32-bit `int`.
  method Pow2Gt(x: nat) returns (r: nat)
    requires 1 <= x <= LIMIT
    ensures x <= r <= LIMIT
  {
    Power30();
    var y := x - 1;
    OrBound(y, y / 2, 30);
    y := Or(y, y / 2);
    OrBound(y, y / 4, 30);
    y := Or(y, y / 4);
    OrBound(y, y / 16, 30);
    y := Or(y, y / 16);
    OrBound(y, y / 256, 30);
    y := Or(y, y / 256);
    OrBound(y, y / 65536, 30);
    y := Or(y, y / 65536);
    r := y + 1;
  }

  // `text` stands in the buffer from `at` on, with a NUL behind it.
  ghost predicate Stands(b: array<char>, at: nat, text: string)
    reads b
  {
    at + |text| < b.Length && b[at..at + |text|] == text && b[at + |text|] == '\0'
  }

  class PrintBuffer {
    var buffer: array<char>
    var offset: nat

    ghost predicate Valid()
      reads this
    {
      offset <= buffer.Length <= LIMIT
    }

    constructor (prebuffer: nat)
      requires 1 <= prebuffer <= LIMIT
      ensures Valid() && fresh(buffer) && offset == 0
    {
      buffer := new char[prebuffer](_ => '\0');
      offset := 0;
    }

    // `ensure`: room for `needed` more bytes.
    method Ensure(needed: nat)
      requires Valid() && 1 <= offset + needed <= LIMIT
      modifies this`buffer
      ensures Valid() && offset + needed <= buffer.Length
      ensures buffer == old(buffer) || fresh(buffer)
      ensures buffer[..offset] == old(buffer[..offset])
    {
      if offset + needed <= buffer.Length {
        return;
      }
      var newsize := Pow2Gt(offset + needed);
      var old' := buffer;
      var grown := new char[newsize](_ => '\0');
      forall i | 0 <= i < old'.Length {
        grown[i] := old'[i];
      }
      buffer := grown;
      assert grown[..offset] == old'[..offset];
    }

    // `update`: where the text ends that starts at `offset`.
    method Update(ghost text: string) returns (end: nat)
      requires Valid() && NoNul(text) && Stands(buffer, offset, text)
      ensures end == offset + |text|
    {
      end := offset;
      assert forall i | 0 <= i < |text| :: text[i] in text;
      assert forall i | 0 <= i < |text| :: buffer[offset + i] == buffer[offset..offset + |text|][i] == text[i];
      while buffer[end] != '\0'
        invariant offset <= end <= offset + |text|
        decreases offset + |text| - end
      {
        end := end + 1;
      }
    }

    // Room for `need` bytes, then the bytes of `text` at `offset`; the offset moves behind them.
    method Append(text: string, need: nat)
      requires Valid() && |text| <= need && 1 <= offset + need <= LIMIT
      modifies this, buffer
      ensures Valid() && (buffer == old(buffer) || fresh(buffer))
      ensures offset == old(offset) + |text| && buffer[..offset] == old(buffer[..offset]) + text
    {
      ghost var done := buffer[..offset];
      Ensure(need);
      for i := 0 to |text|
        invariant Valid() && offset == old(offset) && offset + need <= buffer.Length
        invariant buffer == old(buffer) || fresh(buffer)
        invariant buffer[..offset + i] == done + text[..i]
      {
        buffer[offset + i] := text[i];
      }
      offset := offset + |text|;
    }

    // Room for `need` bytes, then `text` and a NUL at `offset`, which stays.
    method Finish(text: string, need: nat)
      requires Valid() && |text| < need && offset + need <= LIMIT
      modifies this`buffer, buffer
      ensures Valid() && (buffer == old(buffer) || fresh(buffer))
      ensures Stands(buffer, offset, text) && buffer[..offset] == old(buffer[..offset])
    {
      Ensure(need);
      ghost var done := buffer[..offset];
      for i := 0 to |text|
        invariant Valid() && offset + need <= buffer.Length && (buffer == old(buffer) || fresh(buffer))
        invariant buffer[..offset + i] == done + text[..i]
      {
        buffer[offset + i] := text[i];
      }
      buffer[offset + |text|] := '\0';
      assert buffer[..offset + |text|] == done + text;
      assert buffer[offset..offset + |text|] == text && buffer[..offset] == done;
    }

    // `print_number`
    method PrintNumber(n: int, d: real, floats: real -> string)
      requires Valid() && FloatsOk(floats) && offset + 64 <= LIMIT
      modifies this`buffer, buffer
      ensures Valid() && (buffer == old(buffer) || fresh(buffer))
      ensures Stands(buffer, offset, NumberText(n, d, floats)) && buffer[..offset] == old(buffer[..offset])
    {
      NumberTextSize(n, d, floats);
      if d == 0.0 {
        Finish("0", 2);
      } else if Abs(n as real - d) <= DBL_EPSILON && d <= INT_MAX as real && d >= INT_MIN as real {
        Finish(IntText(n), 21);
      } else {
        Finish(floats(d), 64);
      }
    }

    // `print_string_ptr`: as it is if nothing has to be escaped.
    method PrintStr(str: string)
      requires Valid() && NoNul(str) && offset + |Quote(str)| + 1 <= LIMIT
      modifies this`buffer, buffer
      ensures Valid() && (buffer == old(buffer) || fresh(buffer))
      ensures Stands(buffer, offset, Quote(str)) && buffer[..offset] == old(buffer[..offset])
    {
      var flag := false;
      for i := 0 to |str|
        invariant !flag ==> forall j :: 0 <= j < i ==> !NeedsEscape(str[j])
      {
        flag := flag || NeedsEscape(str[i]);
      }
      if !flag {
        PlainEscape(str);
        Finish(['\"'] + str + ['\"'], |str| + 3);
        return;
      }
      var len := EscapedLength(str);
      Ensure(len + 3);
      ghost var done := buffer[..offset];
      WriteQuoted(buffer, offset, str);
      assert buffer[..offset + |Quote(str)|] == done + Quote(str);
    }

    // `print_value` for a child, then `offset = update(p)`: the child's text is appended.
    method AppendValue(t: Json, depth: nat, fmt: bool, floats: real -> string)
      requires Valid() && FloatsOk(floats) && Terminated(t)
      requires offset + |Render(t, depth, fmt, floats)| + 64 <= LIMIT
      modifies this, buffer
      ensures Valid() && (buffer == old(buffer) || fresh(buffer))
      ensures offset == old(offset) + |Render(t, depth, fmt, floats)|
      ensures buffer[..offset] == old(buffer[..offset]) + Render(t, depth, fmt, floats)
      decreases t, 2
    {
      hide Render, FloatsOk;
      ghost var text, done, from := Render(t, depth, fmt, floats), buffer[..offset], offset;
      PrintValue(t, depth, fmt, floats);
      RenderNoNul(t, depth, fmt, floats);
      StandsTail(buffer, from, text, offset - from, done);
      offset := Update(text[offset - from..]);
    }

    // `print_value`. The offset may move, but not behind the text.
    method PrintValue(t: Json, depth: nat, fmt: bool, floats: real -> string)
      requires Valid() && FloatsOk(floats) && Terminated(t)
      requires offset + |Render(t, depth, fmt, floats)| + 64 <= LIMIT
      modifies this, buffer
      ensures Valid() && (buffer == old(buffer) || fresh(buffer))
      ensures old(offset) <= offset <= old(offset) + |Render(t, depth, fmt, floats)|
      ensures Stands(buffer, old(offset), Render(t, depth, fmt, floats))
      ensures buffer[..old(offset)] == old(buffer[..offset])
      decreases t, 1
    {
      hide FloatsOk, NumberText, Quote;
      match t
      case Null => Finish("null", 5);
      case False => Finish("false", 6);
      case True => Finish("true", 5);
      case Number(n, d) => PrintNumber(n, d, floats);
      case String(s) => PrintStr(s);
      case Array(items) => PrintArray(t, depth, fmt, floats);
      case Object(ms, _) => PrintObject(t, depth, fmt, floats);
    }

    // The loop of `print_array`.
    method AppendItems(items: seq<Json>, depth: nat, fmt: bool, floats: real -> string)
      requires Valid() && FloatsOk(floats) && offset > 0 && forall x <- items :: Terminated(x)
      requires offset + |RenderItems(items, depth, fmt, floats)| + 64 <= LIMIT
      modifies this, buffer
      ensures Valid() && (buffer == old(buffer) || fresh(buffer))
      ensures offset == old(offset) + |RenderItems(items, depth, fmt, floats)|
      ensures buffer[..offset] == old(buffer[..offset]) + RenderItems(items, depth, fmt, floats)
      decreases items, 0
    {
      hide FloatsOk, Stands, RenderItems, Render, Terminated;
      ghost var start, done, all := offset, buffer[..offset], RenderItems(items, depth, fmt, floats);
      assert items[0..] == items;
      for k := 0 to |items|
        invariant Valid() && (buffer == old(buffer) || fresh(buffer)) && start <= offset
        invariant buffer[..offset] + RenderItems(items[k..], depth, fmt, floats) == done + all
      {
        ItemsStep(items, k, depth, fmt, floats);
        ghost var rest := RenderItems(items[k + 1..], depth, fmt, floats);
        ghost var before, text := buffer[..offset], Render(items[k], depth, fmt, floats);
        var comma := if k + 1 < |items| then (if fmt then ", " else ",") else "";
        SameSize(before, text + comma + rest, done, all);
        AppendValue(items[k], depth, fmt, floats);
        if k + 1 < |items| {
          Append(comma, |comma| + 1);
        }
        Reassociate(before, text, comma, rest);
      }
      NoMoreItems(items, depth, fmt, floats);
    }

    // `print_array`
    method PrintArray(t: Json, depth: nat, fmt: bool, floats: real -> string)
      requires Valid() && FloatsOk(floats) && Terminated(t) && t.Array?
      requires offset + |Render(t, depth, fmt, floats)| + 64 <= LIMIT
      modifies this, buffer
      ensures Valid() && (buffer == old(buffer) || fresh(buffer))
      ensures old(offset) <= offset <= old(offset) + |Render(t, depth, fmt, floats)|
      ensures Stands(buffer, old(offset), Render(t, depth, fmt, floats))
      ensures buffer[..old(offset)] == old(buffer[..offset])
      decreases t, 0
    {
      hide FloatsOk, Stands, RenderItems;
      if t.items == [] {
        Finish("[]", 3);
        return;
      }
      ghost var start, done, all := offset, buffer[..offset], RenderItems(t.items, depth + 1, fmt, floats);
      Append("[", 1);
      AppendItems(t.items, depth + 1, fmt, floats);
      Finish("]", 2);
      assert done + "[" + all == done + ("[" + all);
      StandsWhole(buffer, start, offset, done, "[" + all, "]");
    }

    // The loop of `print_object`.
    method AppendMembers(ms: seq<Member>, depth: nat, fmt: bool, floats: real -> string)
      requires Valid() && FloatsOk(floats) && offset > 0 && depth > 0
      requires forall m <- ms :: NoNul(m.key) && Terminated(m.value)
      requires offset + |RenderMembers(ms, depth, fmt, floats)| + 64 <= LIMIT
      modifies this, buffer
      ensures Valid() && (buffer == old(buffer) || fresh(buffer))
      ensures offset == old(offset) + |RenderMembers(ms, depth, fmt, floats)|
      ensures buffer[..offset] == old(buffer[..offset]) + RenderMembers(ms, depth, fmt, floats)
      decreases ms, 0
    {
      hide FloatsOk, Stands, RenderMembers, RenderMember, Terminated, NoNul;
      ghost var start, done, all := offset, buffer[..offset], RenderMembers(ms, depth, fmt, floats);
      assert ms[0..] == ms;
      for k := 0 to |ms|
        invariant Valid() && (buffer == old(buffer) || fresh(buffer)) && start <= offset
        invariant buffer[..offset] + RenderMembers(ms[k..], depth, fmt, floats) == done + all
      {
        MembersStep(ms, k, depth, fmt, floats);
        ghost var rest := RenderMembers(ms[k + 1..], depth, fmt, floats);
        ghost var before, text := buffer[..offset], RenderMember(ms[k], depth, k + 1 == |ms|, fmt, floats);
        SameSize(before, text + "" + rest, done, all);
        AppendMember(ms[k], depth, k + 1 == |ms|, fmt, floats);
        Reassociate(before, text, "", rest);
        assert before + text + "" == before + text;
      }
      NoMembers(ms, depth, fmt, floats);
    }

    // `print_object`
    method PrintObject(t: Json, depth: nat, fmt: bool, floats: real -> string)
      requires Valid() && FloatsOk(floats) && Terminated(t) && t.Object?
      requires offset + |Render(t, depth, fmt, floats)| + 64 <= LIMIT
      modifies this, buffer
      ensures Valid() && (buffer == old(buffer) || fresh(buffer))
      ensures old(offset) <= offset <= old(offset) + |Render(t, depth, fmt, floats)|
      ensures Stands(buffer, old(offset), Render(t, depth, fmt, floats))
      ensures buffer[..old(offset)] == old(buffer[..offset])
      decreases t, 0
    {
      hide FloatsOk, Stands, RenderMembers, Tabs;
      if t.members == [] {
        var empty := if fmt then "{\n" + Tabs(depth) + "}" else "{}";
        EmptyObject(depth, fmt);
        Finish(empty, if fmt then depth + 4 else 3);
        return;
      }
      var open, close := if fmt then "{\n" else "{", (if fmt then Tabs(depth) else "") + "}";
      ghost var start, done, all := offset, buffer[..offset], RenderMembers(t.members, depth + 1, fmt, floats);
      FullObject(open, all, close, depth, fmt);
      Append(open, |open| + 1);
      AppendMembers(t.members, depth + 1, fmt, floats);
      Finish(close, if fmt then depth + 2 else 2);
      assert done + open + all == done + (open + all);
      StandsWhole(buffer, start, offset, done, open + all, close);
    }

    // One member: key, colon, value and what separates it from the next one.
    method AppendMember(m: Member, depth: nat, last: bool, fmt: bool, floats: real -> string)
      requires Valid() && FloatsOk(floats) && NoNul(m.key) && Terminated(m.value) && depth > 0
      requires offset + |RenderMember(m, depth, last, fmt, floats)| + 64 <= LIMIT
      modifies this, buffer
      ensures Valid() && (buffer == old(buffer) || fresh(buffer))
      ensures offset == old(offset) + |RenderMember(m, depth, last, fmt, floats)|
      ensures buffer[..offset] == old(buffer[..offset]) + RenderMember(m, depth, last, fmt, floats)
      decreases m, 0
    {
      hide FloatsOk, Render, RenderMember, Quote, Stands;
      ghost var done := buffer[..offset];
      MemberSize(m, depth, last, fmt, floats);
      if fmt {
        Append(Tabs(depth), depth);
      }
      AppendKey(m.key);
      var colon := if fmt then ":\t" else ":";
      Append(colon, |colon|);
      AppendValue(m.value, depth, fmt, floats);
      var end := (if !last then "," else "") + (if fmt then "\n" else "");
      Append(end, |end| + 1);
      MemberText(m, depth, last, fmt, floats, done, buffer[..offset]);
    }

    method AppendKey(str: string)
      requires Valid() && NoNul(str) && offset + |Quote(str)| + 1 <= LIMIT
      modifies this, buffer
      ensures Valid() && (buffer == old(buffer) || fresh(buffer))
      ensures offset == old(offset) + |Quote(str)| && buffer[..offset] == old(buffer[..offset]) + Quote(str)
    {
      ghost var done := buffer[..offset];
      PrintStr(str);
      EscapeNoNul(str);
      offset := Update(Quote(str));
    }
  }

  // Behind a part of a text stands the rest of it.
  lemma StandsTail(b: array<char>, at: nat, text: string, n: nat, done: string)
    requires Stands(b, at, text) && n <= |text| && at <= b.Length && b[..at] == done
    ensures Stands(b, at + n, text[n..]) && b[..at + |text|] == done + text
  {
    assert b[at + n..at + |text|] == b[at..at + |text|][n..];
    assert b[..at + |text|] == b[..at] + b[at..at + |text|];
  }

  // A text that starts at `start` ends with what stands at `at`.
  lemma StandsWhole(b: array<char>, start: nat, at: nat, done: string, text: string, end: string)
    requires start <= at <= b.Length && |done| == start && b[..at] == done + text && Stands(b, at, end)
    ensures Stands(b, start, text + end) && b[..start] == done
  {
    var n := at + |end|;
    assert b[start..n] == b[start..at] + b[at..n];
    assert b[start..at] == b[..at][start..] == text;
    assert b[..start] == b[..at][..start];
  }

  lemma SameSize(a: string, b: string, c: string, d: string)
    requires a + b == c + d
    ensures |a| + |b| == |c| + |d|
  {
    assert |a + b| == |c + d|;
  }

  lemma Reassociate(a: string, b: string, c: string, d: string)
    ensures a + (b + c + d) == a + b + c + d
  {
  }

  lemma ItemsStep(items: seq<Json>, k: nat, depth: nat, fmt: bool, floats: real -> string)
    requires k < |items|
    ensures RenderItems(items[k..], depth, fmt, floats)
         == Render(items[k], depth, fmt, floats)
            + (if k + 1 < |items| then (if fmt then ", " else ",") else "")
            + RenderItems(items[k + 1..], depth, fmt, floats)
  {
    hide Render;
    assert items[k..][1..] == items[k + 1..];
  }

  lemma NoMoreItems(items: seq<Json>, depth: nat, fmt: bool, floats: real -> string)
    ensures RenderItems(items[|items|..], depth, fmt, floats) == ""
  {
  }

  lemma MembersStep(ms: seq<Member>, k: nat, depth: nat, fmt: bool, floats: real -> string)
    requires k < |ms|
    ensures RenderMembers(ms[k..], depth, fmt, floats)
         == RenderMember(ms[k], depth, k + 1 == |ms|, fmt, floats) + "" + RenderMembers(ms[k + 1..], depth, fmt, floats)
  {
    hide RenderMember;
    assert ms[k..][1..] == ms[k + 1..];
    var a := RenderMember(ms[k], depth, k + 1 == |ms|, fmt, floats);
    assert a + "" == a;
  }

  lemma NoMembers(ms: seq<Member>, depth: nat, fmt: bool, floats: real -> string)
    ensures RenderMembers(ms[|ms|..], depth, fmt, floats) == ""
  {
  }

  lemma EmptyObject(depth: nat, fmt: bool)
    ensures (if fmt then "{\n" + Tabs(depth) + "}" else "{}")
         == "{" + (if fmt then "\n" + Tabs(depth) else "") + "}"
  {
    if fmt {
      assert "{\n" + Tabs(depth) + "}" == "{" + ("\n" + Tabs(depth)) + "}";
    }
  }

  lemma FullObject(open: string, all: string, close: string, depth: nat, fmt: bool)
    requires open == (if fmt then "{\n" else "{") && close == (if fmt then Tabs(depth) else "") + "}"
    ensures open + all + close
         == "{" + (if fmt then "\n" else "") + all + (if fmt then Tabs(depth) else "") + "}"
  {
    var tabs := if fmt then Tabs(depth) else "";
    assert open == "{" + (if fmt then "\n" else "");
    assert open + all + (tabs + "}") == open + all + tabs + "}";
  }

  lemma {:induction false} PlainEscape(s: string)
    requires forall j :: 0 <= j < |s| ==> !NeedsEscape(s[j])
    ensures Escape(s) == s
  {
    if s != "" {
      PlainEscape(s[1..]);
    }
  }

  /** `cJSON_PrintBuffered`: the buffer ends up holding the printed text and its NUL, from its start. */
  method PrintBuffered(t: Json, prebuffer: nat, fmt: bool, floats: real -> string) returns (out: array<char>)
    requires 1 <= prebuffer <= LIMIT && FloatsOk(floats) && Terminated(t)
    requires |Render(t, 0, fmt, floats)| + 64 <= LIMIT
    ensures fresh(out) && Stands(out, 0, Render(t, 0, fmt, floats))
  {
    hide FloatsOk, Render, Stands;
    var p := new PrintBuffer(prebuffer);
    p.PrintValue(t, 0, fmt, floats);
    out := p.buffer;
  }

  // ---- Printing without a buffer: every value is printed by itself and copied into its parent's
  // text, whose allocation is counted beforehand. The string returned is what the allocation holds.

  // `memcpy(ptr, s, strlen(s)); ptr += strlen(s)`
  method Copy(out: array<char>, ptr: nat, s: string) returns (next: nat)
    requires ptr + |s| <= out.Length
    modifies out
    ensures next == ptr + |s| && out[..next] == old(out[..ptr]) + s
  {
    for i := 0 to |s|
      invariant out[..ptr + i] == old(out[..ptr]) + s[..i]
    {
      out[ptr + i] := s[i];
    }
    next := ptr + |s|;
  }

  // The text of a list of entries, each with what is written in front of it and behind it.
  function Spliced(entries: seq<string>, k: nat): string
    requires k <= |entries|
  {
    if k == 0 then "" else Spliced(entries, k - 1) + entries[k - 1]
  }

  function Total(entries: seq<string>, k: nat): nat
    requires k <= |entries|
  {
    if k == 0 then 0 else Total(entries, k - 1) + |entries[k - 1]|
  }

  lemma {:induction false} SplicedSize(entries: seq<string>, k: nat)
    requires k <= |entries|
    ensures |Spliced(entries, k)| == Total(entries, k)
  {
    if k > 0 {
      SplicedSize(entries, k - 1);
    }
  }

  // `print_value` without a buffer.
  method PlainValue(t: Json, depth: nat, fmt: bool, floats: real -> string) returns (text: string)
    requires FloatsOk(floats) && Terminated(t)
    ensures text == Render(t, depth, fmt, floats)
    decreases t, 1
  {
    match t
    case Null => text := "null";
    case False => text := "false";
    case True => text := "true";
    case Number(n, d) => text := NumberText(n, d, floats);
    case String(s) =>
      var out := PrintString(s);
      text := out[..out.Length - 1];
    case Array(items) =>
      if items == [] {
        text := "[]";
      } else {
        text := PlainArray(t, depth, fmt, floats);
      }
    case Object(ms, _) =>
      if ms == [] {
        text := "{" + (if fmt then "\n" + Tabs(depth) else "") + "}";
      } else {
        text := PlainObject(t, depth, fmt, floats);
      }
  }

  // `print_array` without a buffer: `len` is enough for the brackets, the entries, the separators
  // and the NUL.
  method PlainArray(t: Json, depth: nat, fmt: bool, floats: real -> string) returns (text: string)
    requires FloatsOk(floats) && Terminated(t) && t.Array? && t.items != []
    ensures text == Render(t, depth, fmt, floats)
    decreases t, 0
  {
    hide FloatsOk, RenderItems, Render, Terminated;
    var items, len := t.items, 5;
    var entries: seq<string> := [];
    ghost var sizes := 0;
    assert forall x <- items :: Terminated(x) by {
      ChildrenTerminated(t);
    }
    for i := 0 to |items|
      invariant |entries| == i && len == 5 + Total(entries, i) + i * (if fmt then 3 else 2)
      invariant forall j | 0 <= j < i :: entries[j] == Render(items[j], depth + 1, fmt, floats)
    {
      var ret := PlainValue(items[i], depth + 1, fmt, floats);
      len := len + |ret| + 2 + (if fmt then 1 else 0);
      TotalSnoc(entries, ret);
      entries := entries + [ret];
    }
    text := ComposeArray(items, depth, fmt, floats, entries, len);
    ArrayText(t, depth, fmt, floats);
  }

  // The entries are copied behind each other, with their separators and brackets.
  method ComposeArray(items: seq<Json>, depth: nat, fmt: bool, ghost floats: real -> string, entries: seq<string>,
                      len: nat)
    returns (text: string)
    requires |entries| == |items| && len == 5 + Total(entries, |entries|) + |entries| * (if fmt then 3 else 2)
    requires forall j | 0 <= j < |items| :: entries[j] == Render(items[j], depth + 1, fmt, floats)
    ensures text == "[" + RenderItems(items, depth + 1, fmt, floats) + "]"
  {
    hide *;
    var out := new char[len](_ => '\0');
    out[0] := '[';
    var ptr := 1;
    assert items[0..] == items;
    ghost var all := RenderItems(items, depth + 1, fmt, floats);
    NoTotal(entries);
    for i := 0 to |items|
      invariant 1 <= ptr <= 1 + Total(entries, i) + i * (if fmt then 2 else 1) && ptr <= len
      invariant out[..ptr] + RenderItems(items[i..], depth + 1, fmt, floats) == "[" + all
    {
      TotalGrows(entries, i);
      ItemsStep(items, i, depth + 1, fmt, floats);
      ghost var before := out[..ptr];
      ptr := Copy(out, ptr, entries[i]);
      var comma := if i != |items| - 1 then (if fmt then ", " else ",") else "";
      ptr := Copy(out, ptr, comma);
      Reassociate(before, entries[i], comma, RenderItems(items[i + 1..], depth + 1, fmt, floats));
    }
    NoMoreItems(items, depth + 1, fmt, floats);
    ptr := Copy(out, ptr, "]");
    out[ptr] := '\0';
    text := out[..ptr];
  }

  lemma NoTotal(entries: seq<string>)
    ensures Total(entries, 0) == 0
  {
  }

  lemma ChildrenTerminated(t: Json)
    requires Terminated(t)
    ensures t.Array? ==> forall x <- t.items :: Terminated(x)
    ensures t.Object? ==> forall m <- t.members :: NoNul(m.key) && Terminated(m.value)
  {
  }

  lemma ArrayText(t: Json, depth: nat, fmt: bool, floats: real -> string)
    requires t.Array? && t.items != []
    ensures Render(t, depth, fmt, floats) == "[" + RenderItems(t.items, depth + 1, fmt, floats) + "]"
  {
  }

  lemma TotalSnoc(entries: seq<string>, e: string)
    ensures Total(entries + [e], |entries| + 1) == Total(entries, |entries|) + |e|
  {
    TotalPrefix(entries, [e], |entries|);
  }

  lemma {:induction false} TotalPrefix(entries: seq<string>, more: seq<string>, k: nat)
    requires k <= |entries|
    ensures Total(entries + more, k) == Total(entries, k)
  {
    if k > 0 {
      TotalPrefix(entries, more, k - 1);
    }
  }

  lemma {:induction false} TotalGrows(entries: seq<string>, k: nat)
    requires k < |entries|
    ensures Total(entries, k + 1) == Total(entries, k) + |entries[k]|
    ensures Total(entries, k + 1) <= Total(entries, |entries|)
    decreases |entries| - k
  {
    if k + 1 < |entries| {
      TotalGrows(entries, k + 1);
    }
  }

  // `print_object` without a buffer. An entry is a whole member here; `len` counts its key, its
  // value and up to four separating bytes besides the tabs.
  method PlainObject(t: Json, depth: nat, fmt: bool, floats: real -> string) returns (text: string)
    requires FloatsOk(floats) && Terminated(t) && t.Object? && t.members != []
    ensures text == Render(t, depth, fmt, floats)
    decreases t, 0
  {
    hide FloatsOk, RenderMembers, RenderMember, Render, Terminated, NoNul, Quote;
    var ms, len, inner := t.members, 7, depth + 1;
    var names: seq<string>, entries: seq<string> := [], [];
    if fmt {
      len := len + inner;
    }
    ghost var base := len;
    assert forall m <- ms :: NoNul(m.key) && Terminated(m.value) by {
      ChildrenTerminated(t);
    }
    for i := 0 to |ms|
      invariant |entries| == i == |names|
      invariant len == base + Total(names, i) + Total(entries, i) + i * PerMember(inner, fmt)
      invariant forall j | 0 <= j < i ::
                  names[j] == Quote(ms[j].key) && entries[j] == Render(ms[j].value, inner, fmt, floats)
    {
      var name := PrintString(ms[i].key);
      var str := name[..name.Length - 1];
      var ret := PlainValue(ms[i].value, inner, fmt, floats);
      len := len + |ret| + |str| + 2 + (if fmt then 2 + inner else 0);
      TotalSnoc(names, str);
      TotalSnoc(entries, ret);
      OneMore(i, PerMember(inner, fmt));
      names, entries := names + [str], entries + [ret];
    }
    text := ComposeObject(t, depth, fmt, floats, names, entries, len);
  }

  // What the bytes of one member add, besides its key and its value.
  function PerMember(depth: nat, fmt: bool): nat { if fmt then 4 + depth else 2 }

  // One member, copied behind the text so far.
  method ComposeMember(out: array<char>, ptr: nat, ghost m: Member, depth: nat, last: bool, fmt: bool,
                       ghost floats: real -> string, name: string, entry: string)
    returns (next: nat)
    requires name == Quote(m.key) && entry == Render(m.value, depth, fmt, floats)
    requires ptr + |name| + |entry| + PerMember(depth, fmt) <= out.Length
    modifies out
    ensures ptr <= next <= ptr + |name| + |entry| + PerMember(depth, fmt)
    ensures out[..next] == old(out[..ptr]) + RenderMember(m, depth, last, fmt, floats) + ""
  {
    hide Render, Quote, Tabs, RenderMember;
    ghost var before := out[..ptr];
    next := ptr;
    if fmt {
      next := Copy(out, next, Tabs(depth));
    }
    next := Copy(out, next, name);
    next := Copy(out, next, if fmt then ":\t" else ":");
    next := Copy(out, next, entry);
    next := Copy(out, next, (if !last then "," else "") + (if fmt then "\n" else ""));
    MemberText(m, depth, last, fmt, floats, before, out[..next]);
  }

  method ComposeObject(t: Json, depth: nat, fmt: bool, ghost floats: real -> string,
                       names: seq<string>, entries: seq<string>, len: nat)
    returns (text: string)
    requires t.Object? && t.members != [] && |names| == |entries| == |t.members|
    requires forall j | 0 <= j < |names| ::
               names[j] == Quote(t.members[j].key) && entries[j] == Render(t.members[j].value, depth + 1, fmt, floats)
    requires var n := |names|;
             len == 7 + (if fmt then depth + 1 else 0) + Total(names, n) + Total(entries, n)
                    + n * PerMember(depth + 1, fmt)
    ensures text == Render(t, depth, fmt, floats)
  {
    hide RenderMembers, RenderMember, Render, Quote, PerMember;
    var ms, inner := t.members, depth + 1;
    ghost var per := PerMember(inner, fmt);
    var out := new char[len](_ => '\0');
    ghost var all := RenderMembers(ms, inner, fmt, floats);
    var open := if fmt then "{\n" else "{";
    RoomLeft(names, entries, 0, per);
    var ptr: nat := Copy(out, 0, open);
    assert ms[0..] == ms;
    for i := 0 to |ms|
      invariant ptr <= 2 + Total(names, i) + Total(entries, i) + i * per
      invariant out.Length == len && ptr <= len
      invariant out[..ptr] + RenderMembers(ms[i..], inner, fmt, floats) == open + all
    {
      RoomLeft(names, entries, i, per);
      MembersStep(ms, i, inner, fmt, floats);
      ghost var before := out[..ptr];
      ptr := ComposeMember(out, ptr, ms[i], inner, i == |ms| - 1, fmt, floats, names[i], entries[i]);
      Reassociate(before, RenderMember(ms[i], inner, i + 1 == |ms|, fmt, floats), "",
                  RenderMembers(ms[i + 1..], inner, fmt, floats));
    }
    NoMembers(ms, inner, fmt, floats);
    assert out[..ptr] == open + all;
    var close := (if fmt then Tabs(depth) else "") + "}";
    ptr := Copy(out, ptr, close);
    out[ptr] := '\0';
    text := out[..ptr];
    FullObject(open, all, close, depth, fmt);
    ObjectText(t, depth, fmt, floats);
  }

  // What is left of the count when `i` members are written.
  lemma RoomLeft(names: seq<string>, entries: seq<string>, i: nat, per: nat)
    requires i <= |names| == |entries|
    ensures i < |names| ==>
              && Total(names, i + 1) == Total(names, i) + |names[i]|
              && Total(entries, i + 1) == Total(entries, i) + |entries[i]|
              && (i + 1) * per == i * per + per
              && Total(names, i) + |names[i]| + Total(entries, i) + |entries[i]| + i * per + per
                 <= Total(names, |names|) + Total(entries, |names|) + |names| * per
  {
    if i < |names| {
      TotalGrows(names, i);
      TotalGrows(entries, i);
      Times(i + 1, |names|, per);
    }
  }

  lemma OneMore(n: nat, per: nat)
    ensures (n + 1) * per == n * per + per
  {
  }

  lemma Times(n: nat, m: nat, per: nat)
    requires n <= m
    ensures n * per <= m * per
  {
  }

  lemma MemberText(m: Member, depth: nat, last: bool, fmt: bool, floats: real -> string, a: string, b: string)
    requires b == a + (if fmt then Tabs(depth) else "") + Quote(m.key) + (if fmt then ":\t" else ":")
                  + Render(m.value, depth, fmt, floats) + ((if !last then "," else "") + (if fmt then "\n" else ""))
    ensures b == a + RenderMember(m, depth, last, fmt, floats)
    ensures b == a + RenderMember(m, depth, last, fmt, floats) + ""
  {
    hide Render, Quote, Tabs;
  }

  lemma MemberSize(m: Member, depth: nat, last: bool, fmt: bool, floats: real -> string)
    ensures |RenderMember(m, depth, last, fmt, floats)|
         == (if fmt then depth + 3 else 1) + |Quote(m.key)| + |Render(m.value, depth, fmt, floats)|
            + (if last then 0 else 1)
  {
    hide Render, Quote;
  }

  lemma ObjectText(t: Json, depth: nat, fmt: bool, floats: real -> string)
    requires t.Object? && t.members != []
    ensures Render(t, depth, fmt, floats)
         == "{" + (if fmt then "\n" else "") + RenderMembers(t.members, depth + 1, fmt, floats)
            + (if fmt then Tabs(depth) else "") + "}"
  {
  }
}
