# Verified models of cJSON, cJSON_Utils, http_parser and Mini-XML

This project models the text and tree libraries of the repository and proves the properties they exist for.

**cJSON_Utils** is an algebra over JSON trees: pointers, patches, merge patches, sorting and comparison. `Json` holds
the trees, and their meaning: a tree denotes a value (`Canon`) in which an object is a map from case-folded keys, so
two trees with the same value differ only in member order and key case. An object also records whether its first
member has a stale `prev`, the one link that a sort can leave wrong. `Pointer`, `Patch`, `Compare`, `Sort` and
`MergePatch` are the operations. `DiffApply` and `MergeInverse` prove exactly when a generated patch leads from its
source to its target, on a copy and on the source that the generator has sorted in place. `SortChain` is the merge
sort on the real `next`/`prev` chain, and what detaching makes of it; `UtilsLoops` holds the loops that work in place
or walk with cursors. `PatchRfc` states section 4 of RFC 6902 on values, without the tree edits, and proves when the
operations do what it says.

**cJSON** is a parser, two printers and a minifier. `JsonText` is the printed text of a tree. `JsonString` and
`JsonParse` take it apart again, first as functions on the text and then as methods with positions, scans and output
arrays. `JsonSyntax` is the grammar of RFC 8259 with all its spellings, and what they mean. `JsonBuffer` is the growing
print buffer and the two-pass allocating printer; `JsonMinify` rewrites a buffer in place, and `JsonComments` says what
that drops from a text with comments; `Utf8` is the encoding of RFC 3629.

**http_parser** is a resumable machine for HTTP messages. `HttpStep` is its switch: what one byte does in every state,
with the data marks and callbacks it causes. `HttpTrace` gives the meaning of marks and callbacks: a log in which
consecutive data callbacks for one field are joined, and `PerByte`, a run with one call per byte. `HttpInvariant` shows
that no byte can break the machine. `HttpBulk` and `HttpExecute` treat the real function, a loop over a buffer that
consumes header names, header values and body bytes in bulk, and prove that it does what `PerByte` does, however the
stream is cut. `HttpChunked` is the chunked coding of section 4.1 of RFC 7230. What a message means is stated without the
machine: `HttpGrammar` has start lines, header fields and their values as data, `HttpFraming` the rules of RFC 7230 for
the body and for the connection; `HttpLine`, `HttpName`, `HttpList`, `HttpValue` and `HttpHeader` prove that the machine
reads the parts, with the runs of `HttpRuns`, and `HttpMessage` that it reads whole messages and streams of them.
`HttpUrl` is the URL parser: `HttpUrlParts` has its two automata, `HttpUrlGrammar` and `HttpUrlHost` say what a URL and
an authority are, from characters alone.

**Mini-XML** keeps a document as nodes that point to parent, siblings and children. `XmlTree` lays such a heap out as the
sequence of its nodes in document order; `XmlSearch` walks and searches it, `XmlNode` changes child lists, `XmlDelete`
frees a tree without a stack. `XmlIndex` is the sorted index with its quicksort and binary search. `XmlSave` is the
writer, one pass over the pointers; `XmlChars` reads and writes UTF-8, `XmlLoad` gives the loader as functions on the
characters that are left, `XmlReader` as loops with a cursor and growing buffers; `XmlRoundTrip` proves that what was
saved is loaded again. `XmlSyntax` is the grammar of documents as they may be written by hand, with references, quotes
and white space, and proves that each is loaded as the tree it means.

A method with a loop carries the loop of the C function and is proved against a function or predicate. The main
theorems are about these.

## Model

| member | source | states |
|---|---|---|
| HttpExecute.HttpParser.Execute | package/lib/http_parser/http_parser.c:641-2155 | The buffer loop, with the inner loops for header names, header values and bodies: if one call per byte does not fail, its parser fields, log and consumed count are those of that run; if it fails, the call fails with the same error, or notices a size overflow later (`SameError`). An empty buffer reports the end of the stream; after an error nothing happens any more |
| HttpExecute.HttpParser.Feed | package/lib/http_parser/http_parser.c:641-2155 | Segmentation independence: executing any list of non-empty pieces in turn gives the parser, the joined callback log and the byte count of one call per byte of their concatenation, whatever the cuts, if that run does not fail; otherwise an error as above, and then logs are not compared, because a failed call drops the data that it has not delivered yet |
| HttpExecute.Session | package/lib/http_parser/http_parser.c:2224-2233 | The same from `http_parser_init` for every kind of parser and every list of pieces; no assertion of the C code fails, and if there is no error the invariant holds and `nread` is within the limit |
| HttpExecute.ReadToEnd | package/lib/http_parser/http_parser.c:659-687 | A body that ends with the stream is delivered completely, followed by exactly one `message_complete` |
| HttpExecute.HttpParser.HeaderName | package/lib/http_parser/http_parser.c:1256-1391 | The inner loop over a header name, with the header matchers and the late size check, agrees with one call per byte |
| HttpExecute.HttpParser.SkipGeneral | package/lib/http_parser/http_parser.c:1511-1530 | The bulk scan for an ordinary header value, capped by the size limit, leaves the parser where one call per byte leaves it, and reports the overflow if that run overflows |
| HttpExecute.HttpParser.HeaderText | package/lib/http_parser/http_parser.c:1482-1706 | The same for a whole header value, up to its line end, an invalid byte or the end of the buffer |
| HttpExecute.HttpParser.ChunkBody | package/lib/http_parser/http_parser.c:2078-2099 | Consuming a whole chunk, or all the buffer has of it, equals consuming its bytes one call each |
| HttpExecute.HttpParser.IdentityBody | package/lib/http_parser/http_parser.c:1944-1979 | The same for a body of known length, with the end of the message that is reached without another byte |
| HttpInvariant.GoodStep | package/lib/http_parser/http_parser.c:712-2127 | Every byte in every state: from a good parser no assert fails, the successor is good again, callbacks are not raised over pending data, and exactly the mark that the new state needs is left set |
| HttpInvariant.ByteInBuffer | package/lib/http_parser/http_parser.c:105-141 | A byte inside a longer buffer has the effect that it has in a buffer of its own, on parser, marks and log |
| HttpInvariant.PerByteGood | package/lib/http_parser/http_parser.c:641-2155 | The invariant is kept by every run over every byte string, and no assertion fails in it |
| HttpInvariant.Reachable | package/lib/http_parser/http_parser.c:2224-2233 | From `http_parser_init` every byte string leads to a good parser, an error or an upgrade exit; never to a failed assert |
| HttpInvariant.EndOfStream | package/lib/http_parser/http_parser.c:659-687 | The stream may end exactly in five states; in `s_body_identity_eof` it completes the message |
| HttpBulk.ManyBodyBytes | package/lib/http_parser/http_parser.c:1944-1979 | Any number of body bytes, one call each, is one callback with all of them, and completes the chunk or message exactly at its length |
| HttpBulk.ScanStops | package/lib/http_parser/http_parser.c:1256-1391 | The byte that stops a header scan acts as the switch does, on what one call per byte has built up so far |
| HttpBulk.ValueRejected | package/lib/http_parser/http_parser.c:1493-1509 | A byte that a header value cannot have gives the same error in the bulk loop, unless the size limit was passed before it |
| HttpBulk.ByteTurns | package/lib/http_parser/http_parser.c:712-2127 | A byte that no bulk loop consumes does in the buffer loop what it does in a call of its own |
| HttpTrace.SameByte | package/lib/http_parser/http_parser.c:105-141 | Two buffers that hold the same byte, with the same fields pending, raise the same joined callbacks for it |
| HttpChunked.ReceiveChunked | package/lib/http_parser/http_parser.c:1996-2127 | Any list of chunks with their size lines, extensions and final chunk, cut into any pieces: `on_body` gets exactly their concatenation, each chunk its header and completion callbacks, and the message completes once |
| HttpChunked.ChunkedDecodes | package/lib/http_parser/http_parser.c:1996-2127 | The same as a statement about runs: decoding inverts encoding |
| HttpChunked.SizeIsExactly | package/lib/http_parser/http_parser.c:1996-2047 | A size is accepted with the value of its hexadecimal numeral if and only if every byte is a hexadecimal digit and the value passes the overflow guard; no wrap-around is possible |
| HttpChunked.SizeAccepted | package/lib/http_parser/http_parser.c:2012-2047 | What else is accepted: exactly the texts whose bytes `unhex` gives a value, if that value passes the guard |
| HttpChunked.HighByteIsDigit | package/lib/http_parser/http_parser.c:224-241 | The input that separates the two: the bytes `1` and 200 are read as the size 16, although they are no numeral |
| HttpMessage.MessageRead | package/lib/http_parser/http_parser.c:712-2127 | A message of the grammar, from its first byte on: the callbacks get the target or reason, every field name and value, the body and the completion, in order and once; then the parser waits for the next message, leaves the protocol or refuses the head, as the framing rules say. The grammar has both kinds of lines, any header fields, also folded ones, bodies with a length, in chunks with a trailer, or up to the end of the stream |
| HttpMessage.StreamRead | package/lib/http_parser/http_parser.c:712-2127 | A stream of such messages, each of which leaves the connection open: all their callbacks, one message after the other |
| HttpMessage.ReceiveStream | package/lib/http_parser/http_parser.c:641-2155 | The same for the buffer loop and every cut of the stream into non-empty pieces; every byte is consumed |
| HttpMessage.LengthDelivers | package/lib/http_parser/http_parser.c:1542-1568 | A field with the decimal numeral of the body's length in front of that body: exactly that body is delivered, and the message completes once |
| HttpMessage.HeadersRead | package/lib/http_parser/http_parser.c:1206-1793 | Any list of header fields in front of any text: their names and values are the callbacks, and flags and length are what the fields mean |
| HttpHeader.HeaderRead | package/lib/http_parser/http_parser.c:1206-1793 | The same for one field, in any case of its name, with blanks, either line end, an empty value, and lines that go on with a plain value |
| HttpValue.LengthIsExactly | package/lib/http_parser/http_parser.c:1436-1568 | From an open length field a value is accepted if and only if it is the first one and is digits, then spaces, with a value within the guard; the length is then the value of that decimal numeral |
| HttpValue.ListValue | package/lib/http_parser/http_parser.c:1570-1690 | A list of connection options or transfer codings sets the flags that its members ask for |
| HttpGrammar.OptionIsMember | package/lib/http_parser/http_parser.c:1614-1690 | If no member is cut short or muted, an option is set exactly if it is a member of the list, in any case |
| HttpGrammar.ChunkedIsLast | package/lib/http_parser/http_parser.c:1570-1612 | Likewise the body is chunked exactly if the last coding says so |
| HttpGrammar.CutWordHides | package/lib/http_parser/http_parser.c:1628-1660 | An input that is misread: in `Connection: c, close` the first member begins the word and swallows the comma |
| HttpGrammar.UnderscoreMutes | package/lib/http_parser/http_parser.c:1614-1626 | A member with an underscore at its start ends the reading of the list |
| HttpGrammar.TwiceChunked | package/lib/http_parser/http_parser.c:1592-1674 | `chunked, chunked` is not taken for chunked |
| HttpLine.LineRead | package/lib/http_parser/http_parser.c:712-1204 | A start line of the grammar: each of the 34 methods, a target of the URL grammar, the version or none; or a status line with its code and reason |
| HttpLine.MethodIsExactly | package/lib/http_parser/http_parser.c:927-1043 | What stands in front of the first space is accepted if and only if it is the name of a method, with that method |
| HttpFraming.FrameIsRfc | package/lib/http_parser/http_parser.c:1874-1939 | Without an upgrade or a conflict of length and coding, the body is framed as section 3.3.3 of RFC 7230 demands if and only if the response has no body that its status forbids and a request with other codings is not let through leniently |
| HttpFraming.NotModifiedHasBody | package/lib/http_parser/http_parser.c:1920-1939 | The input that separates the two: a 304 response with a length |
| HttpFraming.PersistsIsRfc | package/lib/http_parser/http_parser.c:2160-2204 | For which versions and options the connection persists exactly as section 6.3 of RFC 7230 says |
| HttpUrl.UrlInfo.ParseUrl | package/lib/http_parser/http_parser.c:2422-2543 | Succeeds if and only if the text is a URL of the grammar: a schema, an authority, a path without `?` and `#`, a query without `#` and a fragment, in any combination that the C code takes, with a host whenever there is a schema, only host and port for CONNECT, and a port that fits 16 bits. The field table is then exactly the slices of these parts, and the port the value of its digits |
| HttpUrl.UrlInfo.ParseHost | package/lib/http_parser/http_parser.c:2335-2415 | Splits the authority into userinfo, host and port as the host automaton cuts it, and fails exactly when that automaton ends in no accepting state |
| HttpUrl.SlicesText | package/lib/http_parser/http_parser.c:2422-2543 | Each slice holds the text of its part |
| HttpUrlParts.ParsedUnique | package/lib/http_parser/http_parser.c:2422-2543 | The split is determined by the bytes |
| HttpUrl.PartsInOrder | package/lib/http_parser/http_parser.c:2422-2543 | Every field is a non-empty slice inside the text; the slices are disjoint, in the order schema, userinfo, host, port, path, query, fragment |
| HttpUrl.Delimiters | package/lib/http_parser/http_parser.c:493-639 | What stands in front of a query, a fragment and a port, and what a path starts with |
| DiffApply.GenerateThenApply | package/lib/cJSON/cJSON_Utils.c:476-627 | Diff then apply, for roots of the same container kind with case-distinct keys and any document equal to the source: the patch can be carried out if and only if it leaves the first member of every list with a stale `prev` in its place (`HeadsHold`); then it never fails, and its result has the value of the target if and only if no aligned pair of arrays loses more than one element |
| DiffApply.GenerateThenApplyToSource | package/lib/cJSON/cJSON_Utils.c:476-627 | The same for the source itself, which the generator has sorted in place, with the condition on the trees that the caller starts from (`FirstStays`): at every aligned pair of objects the member with the smallest folded key is the first one, or the target has it with an equal value or as a container of the same kind |
| DiffApply.CleanHolds | package/lib/cJSON/cJSON_Utils.c:476-627 | A document without stale links, such as a copy, can always be patched |
| DiffApply.SortedSourceBreaks | package/lib/cJSON/cJSON_Utils.c:579-580 | An input that fails: `{"b":1,"a":2}` to `{"b":1,"a":3}`, applied to the sorted source |
| DiffApply.TestThenRemove | package/lib/cJSON/cJSON_Utils.c:357-361 | What the sort of a `test` does to the document: afterwards a member can be removed unless it has the smallest key and was not the first one |
| Patch.CleanStays | package/lib/cJSON/cJSON_Utils.c:318-474 | No operation but `test` makes a link stale |
| DiffApply.PatchedIsTarget | package/lib/cJSON/cJSON_Utils.c:562-566 | The condition is exact: what the patch really gives (`Patched`, in which a shrinking array keeps every second surplus element) is the target if and only if it holds |
| DiffApply.EditInChild | package/lib/cJSON/cJSON_Utils.c:318-474 | An operation whose path goes on below a child acts on that child alone, with the same result |
| DiffApply.ApplyRemoves | package/lib/cJSON/cJSON_Utils.c:562-566 | Removing ascending indices leaves every second element of the tail |
| PatchRfc.RfcApplied | package/lib/cJSON/cJSON_Utils.c:318-474 | For a case-distinct document without stale links and any paths but the root: where section 4 of RFC 6902 gives a result for add, remove, replace, move, copy or test, the operation answers 0 and leaves a document with exactly that value |
| PatchRfc.ErrorsNoticed | package/lib/cJSON/cJSON_Utils.c:318-474 | Where it gives an error and the tokens at arrays are indices, the operation answers 0 all the same if and only if a stated condition (`Quiet`) holds: nothing to remove, an add past the end of an array or to a scalar, a move below its own place |
| PatchRfc.MoveLoses | package/lib/cJSON/cJSON_Utils.c:381-445 | A move whose target has no container answers 9, and the value is gone from the document |
| PatchRfc.DashRemovesFirst | package/lib/cJSON/cJSON_Utils.c:223-258 | An input where an array token is no index: removing `/-` takes the first element |
| PatchRfc.TestedIs | package/lib/cJSON/cJSON_Utils.c:357-361 | A test answers 0 exactly if the place holds the value, and changes no value |
| PatchRfc.MovedPlaces | package/lib/cJSON/cJSON_Utils.c:381-474 | After a move the target holds what was at `from`, `from` is gone, and every place that neither edit touches holds what it held |
| PatchRfc.AddedPlaces | package/lib/cJSON/cJSON_Utils.c:431-474 | After an add the place holds the value, and the untouched places what they held |
| PatchRfc.AddedItem | package/lib/cJSON/cJSON_Utils.c:444-454 | In an array the new element stands at its index, and the others keep their order |
| PatchRfc.RemovedPlaces | package/lib/cJSON/cJSON_Utils.c:368-379 | After a remove from an object the place is gone, and the untouched places hold what they held |
| PatchRfc.PatchApplied | package/lib/cJSON/cJSON_Utils.c:476-507 | A list of operations, each an object with its members in any order, is carried out as a whole if the RFC gives every one a result; tests compare with values that hold no object |
| Compare.CompareDecides | package/lib/cJSON/cJSON_Utils.c:260-316 | 0 exactly for trees with the same value: equal up to member order and key case, at every level |
| Compare.ComparedKeeps | package/lib/cJSON/cJSON_Utils.c:285-287 | The sorting that the comparison does in place, up to the first difference, changes no value |
| Sort.SortListSorts | package/lib/cJSON/cJSON_Utils.c:630-734 | The result is sorted by folded key and a permutation of the list |
| Sort.SortKeepsCanon | package/lib/cJSON/cJSON_Utils.c:630-739 | Sorting does not change the value of an object with case-distinct keys |
| Sort.HeadStays | package/lib/cJSON/cJSON_Utils.c:630-734 | The first node stays the first one exactly if it has the smallest key |
| Sort.SortTwice | package/lib/cJSON/cJSON_Utils.c:736-739 | Sorting once more changes neither the list nor its link, so it does not matter that the merge generator compares objects before it walks through them |
| SortChain.SortList | package/lib/cJSON/cJSON_Utils.c:630-734 | The merge sort on the heap: splitting with two cursors and merging relink the same nodes into a doubly linked chain that holds the list `Sort.SortList` gives; the head is the node that `Sort.HeadIndex` names, and only its `prev` is as it was |
| SortChain.Container.SortObject | package/lib/cJSON/cJSON_Utils.c:736-739 | The list becomes the one that `Sort.SortObject` gives, with its flag: the first node has a `prev` exactly if it had one before or another node came to the front |
| SortChain.Container.Detach | package/lib/cJSON/cJSON.c:1750-1780 | For every list whose only wrong link may be the `prev` of its first node, and every index: the list without the item, unless the item is the first one and has such a `prev` into the list; then the rest is a ring |
| SortChain.Container.SortThenDetach | package/lib/cJSON/cJSON_Utils.c:736-739 | For every well-formed list and every index: after the sort and a detach the rest is a well-formed list if and only if the item is not the first one or the first one was the first before |
| SortChain.StaleHeadMakesACircle | package/lib/cJSON/cJSON_Utils.c:666-709 | What the stale `prev` does: sort two members into the other order, detach the first one, and the remaining chain is a circle |
| Pointer.PointerRoundTrip | package/lib/cJSON/cJSON_Utils.c:116-205 | For every node of a tree with case-distinct keys, the pointer found for it leads back to that very node; keys may contain any mix of `~` and `/` |
| Pointer.DecodeEncode | package/lib/cJSON/cJSON_Utils.c:79-114 | Decoding a reference token undoes its encoding (section 4 of RFC 6901) |
| Pointer.TokenMatchesEncoded | package/lib/cJSON/cJSON_Utils.c:44-77 | Matching a key against an encoded token is equality of the folded keys |
| UtilsLoops.DecodeInPlace | package/lib/cJSON/cJSON_Utils.c:208-221 | In place, the write cursor behind the read cursor: the array holds the decoded token and nothing behind the text is touched |
| UtilsLoops.FollowPointer | package/lib/cJSON/cJSON_Utils.c:164-205 | The walk with one cursor in the pointer and one in the tree finds the node that the recursive definition names |
| UtilsLoops.CompareToPatchLoop | package/lib/cJSON/cJSON_Utils.c:527-619 | The walk over both trees appends exactly the edits of `CompareToPatch`, and leaves the source as `Diffed` says |
| UtilsLoops.GeneratePatches | package/lib/cJSON/cJSON_Utils.c:621-627 | The patches for two trees; the source is sorted in place |
| UtilsLoops.GenerateMergeLoop | package/lib/cJSON/cJSON_Utils.c:774-828 | The walk that generates a merge patch gives exactly the members of `MergePatch.GenerateMembers`, and leaves the source as `Walked` says |
| UtilsLoops.Document.ApplyPatches | package/lib/cJSON/cJSON_Utils.c:476-498 | Applies one patch after the other to the document itself, with what a `test` sorts, stops at the first error with its code, and does not get past a detach that closes a circle |
| MergePatch.MergeIsRfc | package/lib/cJSON/cJSON_Utils.c:741-772 | A merge can be carried out if and only if the patch has no first member of a list with a stale link, at any level (`MergeHolds`); then it computes the function of section 2 of RFC 7396, on values |
| MergePatch.MergeTwice | package/lib/cJSON/cJSON_Utils.c:741-772 | Where a merge patch can be applied it can be applied a second time, which changes no value |
| MergePatch.MergePatchLoop | package/lib/cJSON/cJSON_Utils.c:741-772 | The loop over the members of the patch gives the recursive definition |
| MergeInverse.GenerateThenMerge | package/lib/cJSON/cJSON_Utils.c:774-828 | For any case-distinct trees and any document equal to the source: no patch exactly for two objects with the same members, spelled alike; otherwise the patch gives the target if and only if the byte-wise walk over the fold-sorted lists recovers it (`Recovers`: no member of the target is met alone before the null for its folded key, and no null is new) and meets the first member of every list with a stale link together with an equal one (`HeadsPass`) |
| MergeInverse.GenerateThenMergeToSource | package/lib/cJSON/cJSON_Utils.c:774-828 | The same for the source itself, sorted in place. Where the sibling keys of both trees have the same order folded and byte-wise, the two conditions are that every null member of the target is already in the source, and that at every aligned pair of objects that differ the member with the smallest key is the first one of the source or is in the target with an equal value |
| MergeInverse.CleanPasses | package/lib/cJSON/cJSON_Utils.c:774-828 | In a document without stale links, such as a copy, none is followed |
| MergeInverse.RecoversInOrder | package/lib/cJSON/cJSON_Utils.c:774-828 | With such keys, which keys without upper-case letters are (`LowerOrder`), only the null members decide |
| MergeInverse.WalkGives | package/lib/cJSON/cJSON_Utils.c:774-828 | What the generated patch makes of each folded key, also where it has two members with that key |
| MergeInverse.SortedSourceBreaks | package/lib/cJSON/cJSON_Utils.c:787-788 | An input with lower-case keys that fails: `{"b":1,"a":2}` to `{"b":1,"a":3}`, merged into the sorted source |
| MergeInverse.UpperCaseKeysBreakIt | package/lib/cJSON/cJSON_Utils.c:774-828 | An input that fails because of the order of its keys: `{"a":1}` to `{"A":2}` yields the empty object |
| JsonParse.PrintParse | package/lib/cJSON/cJSON.c:820-937 | Parsing the printed text, formatted or not, gives the same tree, with the links of a copy, and consumes all of it |
| JsonParse.ValueRoundTrip | package/lib/cJSON/cJSON.c:892-1344 | The same at any depth and in front of any text that does not continue a number: that text is left untouched |
| JsonParse.NumberBack | package/lib/cJSON/cJSON.c:153-220 | A printed int is read back as itself |
| JsonParse.ParseWithOpts | package/lib/cJSON/cJSON.c:820-858 | The cursor parser, with its recursive methods and loops for arrays and objects, succeeds exactly when the recursive definition does, with its tree |
| JsonParse.ParseArrayAt | package/lib/cJSON/cJSON.c:1019-1083 | The loop over elements stops where the definition says, with its items |
| JsonParse.ParseObjectAt | package/lib/cJSON/cJSON.c:1252-1344 | The loop over members, likewise |
| JsonSyntax.TextReads | package/lib/cJSON/cJSON.c:820-937 | A text of the grammar of RFC 8259, with any spelling of strings and numbers and any white space between tokens, parses to the tree it means; if the end is asked for, exactly when only white space follows |
| JsonSyntax.ValueReads | package/lib/cJSON/cJSON.c:892-1344 | The same for a value in front of any text, which is left untouched |
| JsonSyntax.StringSpelled | package/lib/cJSON/cJSON.c:473-647 | A literal in which each character stands as itself, as one of the eight two-byte escapes, or as `\u` with digits of either case, in one unit or a surrogate pair, is read as exactly the string it spells |
| JsonSyntax.LiteralIsSpelled | package/lib/cJSON/cJSON.c:473-647 | Conversely, a literal is accepted only if its body is such a spelling, and its value is the string spelled |
| JsonSyntax.NulEscapeFails | package/lib/cJSON/cJSON.c:556-574 | The one escape of the RFC that is refused: the code point 0 |
| JsonSyntax.NumeralReads | package/lib/cJSON/cJSON.c:153-220 | A number with any integer part, fraction and exponent is read as its exact value, and its integer is that value cut towards zero |
| JsonString.StringRoundTrip | package/lib/cJSON/cJSON.c:473-792 | A printed string is parsed back, and nothing behind it is touched |
| JsonString.CodePointRoundTrip | package/lib/cJSON/cJSON.c:541-635 | The `\u` escape of any code point but 0, with a surrogate pair above FFFF, is read as its UTF-8 form |
| JsonString.CountIsEnough | package/lib/cJSON/cJSON.c:487-509 | The first scan counts at least as many bytes as the second one writes |
| JsonString.ParseStringAt | package/lib/cJSON/cJSON.c:473-647 | Both scans: the second writes the unescaped string into an array of the size that the first one counted, never outside it |
| JsonString.EscapedLength | package/lib/cJSON/cJSON.c:703-728 | The length count of the printer is exact |
| JsonString.PrintString | package/lib/cJSON/cJSON.c:703-792 | The printer fills its allocation to the byte |
| Utf8.DecodeEncode | package/lib/cJSON/cJSON.c:598-635 | Every code point can be read back from its encoding, in front of any text |
| JsonBuffer.PrintBuffered | package/lib/cJSON/cJSON.c:876-888 | For every tree, format and initial size from 1 on, the buffer ends up holding exactly the text of the unbuffered printer and its NUL; every write is inside the buffer that `ensure` returned |
| JsonBuffer.PrintBuffer.Ensure | package/lib/cJSON/cJSON.c:251-285 | After it there is room for the bytes asked for, and the text so far is kept |
| JsonBuffer.PrintBuffer.Update | package/lib/cJSON/cJSON.c:287-297 | Finds the end of the text that was written last |
| JsonBuffer.PrintBuffer.PrintObject | package/lib/cJSON/cJSON.c:1357-1471 | The members go behind the text so far, each followed by `update`; the offset never passes the text |
| JsonBuffer.PlainValue | package/lib/cJSON/cJSON.c:940-1016 | The allocating printer returns the same text |
| JsonBuffer.PlainArray | package/lib/cJSON/cJSON.c:1161-1249 | The length summed up over the printed elements is enough for all of them |
| JsonBuffer.PlainObject | package/lib/cJSON/cJSON.c:1472-1619 | The length summed up over keys and values is enough for all members with their tabs and separators |
| JsonMinify.MinifyIsUnformatted | package/lib/cJSON/cJSON.c:2172-2234 | Minifying the formatted print of any tree gives its unformatted print |
| JsonMinify.MinifyInPlace | package/lib/cJSON/cJSON.c:2172-2234 | In place, the write cursor never passing the read cursor: the buffer holds the minified text and nothing behind the text is touched |
| JsonMinify.MinifyPrinted | package/lib/cJSON/cJSON.c:2172-2234 | Both together, on the buffer of a formatted print |
| JsonComments.CommentsDropped | package/lib/cJSON/cJSON.c:2172-2234 | Minifying a text of white space, line comments, block comments, literals and other bytes leaves exactly the literals and the other bytes |
| JsonComments.SlashCloses | package/lib/cJSON/cJSON.c:2202-2210 | An input that is read differently: a slash straight behind the opening of a block comment closes it |
| JsonText.RenderNoNul | package/lib/cJSON/cJSON.c:940-1619 | Printed text contains no NUL, so its terminator is the first one |
| Text.CompareIgnoringCase | package/lib/cJSON/cJSON_Utils.c:22-42 | The difference of the first two folded bytes that differ; 0 or 1 for NULL arguments; its sign is the order the sort uses |
| XmlTree.TreeLaid | package/lib/mxml/mxml-search.c:194-229 | Every linked tree of distinct nodes has a layout: its nodes in preorder, with the links that the walk relies on |
| XmlSearch.WalkNext | package/lib/mxml/mxml-search.c:203-229 | Descending, the pointer walk goes to the next node in document order; otherwise to the node behind the subtree; NULL exactly at the end of the tree under the top node |
| XmlSearch.FindElement | package/lib/mxml/mxml-search.c:34-104 | Returns the first match behind the node in document order, or among the siblings where the walk starts, for each of the three descend modes; NULL exactly if there is none or a value comes without an attribute |
| XmlSearch.SiblingFromIsFirst | package/lib/mxml/mxml-search.c:34-104 | A search that does not descend stays among the siblings and skips none that matches |
| XmlIndex.IndexSort | package/lib/mxml/mxml-index.c:581-652 | The in-place quicksort leaves a sorted permutation of its range and nothing else changed |
| XmlIndex.IndexNew | package/lib/mxml/mxml-index.c:306-452 | The index holds exactly the matching nodes of the walk (and the top node, if neither name is given), sorted by name and attribute value |
| XmlIndex.Index.Find | package/lib/mxml/mxml-index.c:98-268 | One call with the cursor anywhere: which node is returned and where the cursor goes |
| XmlIndex.SearchIsFirst | package/lib/mxml/mxml-index.c:145-214 | In a list that is ordered as the search sees it, the modified binary search finds the first match, or nothing exactly if there is none |
| XmlIndex.FindAll | package/lib/mxml/mxml-index.c:98-268 | By name or value, repeated after a reset until NULL: one contiguous run of matches, which is all matching nodes of the index if and only if the run from the node found first has them all (`Complete`), as it always has by name |
| XmlIndex.SearchTree | package/lib/mxml/mxml-index.c:98-452 | Index and search together agree with a linear search of the walk: the same nodes, each as often, in sorted order. By name in any index, by value alone in an index made for one name |
| XmlIndex.UnnamedIsComplete | package/lib/mxml/mxml-index.c:145-268 | A search by value alone finds all matches, for every value, if and only if the index has at most two nodes or the attribute values ascend through it |
| XmlIndex.OneNameIsComplete | package/lib/mxml/mxml-index.c:145-268 | So it does in an index whose nodes have one name |
| XmlIndex.UnnamedMisses | package/lib/mxml/mxml-index.c:145-214 | Otherwise it may not: three nodes on which a search by value alone steps over the first match |
| XmlNode.Add | package/lib/mxml/mxml-node.c:40-163 | The node leaves its old parent's list and stands at the given place in the new one; all links of both lists are right, also if they are the same list or the parent is moved below a sibling. Placed next to itself it leaves no list |
| XmlNode.Remove | package/lib/mxml/mxml-node.c:636-692 | The doubly linked list is the old one without the node, which has no links left |
| XmlNode.BesideItself | package/lib/mxml/mxml-node.c:92-147 | The only calls that break the list: a node placed before or after itself becomes its own neighbour, and the parent has no list of children any more |
| XmlDelete.Delete | package/lib/mxml/mxml-node.c:174-239 | Every node of the tree is freed exactly once, children before their parents, no freed node is read, and the former parent's list is left without the node |
| XmlDelete.PostsIsPostorder | package/lib/mxml/mxml-node.c:202-238 | The order of the frees is the postorder of the tree |
| XmlSave.WriteNode | package/lib/mxml/mxml-file.c:2747-3059 | The single pass over the pointers, closing tags on the way up, writes what the layout prescribes, with the column that decides about line wraps |
| XmlSave.WritesTree | package/lib/mxml/mxml-file.c:2747-3059 | That is the text of the tree as defined by recursion |
| XmlReader.LoadText | package/lib/mxml/mxml-file.c:1363-2079 | The main loop, with comments, CDATA sections, instructions, declarations, closing and opening tags, gives the tree of the recursive definition, or NULL when that gives none |
| XmlReader.ReadAttrs | package/lib/mxml/mxml-file.c:2087-2390 | The attribute loop with its two buffers, likewise, in all quoting styles and error cases |
| XmlReader.CharBuffer.AddChar | package/lib/mxml/mxml-file.c:570-642 | The buffer grows in time: the UTF-8 bytes are appended and there is always room for the terminator |
| XmlReader.Source.Getc | package/lib/mxml/mxml-file.c:2408-2548 | One character at a time in UTF-8, byte order marks skipped |
| XmlChars.BytesBack | package/lib/mxml/mxml-file.c:570-642 | A character is put into the buffer as the bytes it was read from |
| XmlSyntax.DecimalReference | package/lib/mxml/mxml-file.c:1299-1357 | `&#` and a decimal numeral stand for the character with that number, in front of any text |
| XmlSyntax.HexReference | package/lib/mxml/mxml-file.c:1299-1357 | `&#x` and a hexadecimal numeral likewise, with digits of either case |
| XmlSyntax.SpelledLoads | package/lib/mxml/mxml-file.c:2009-2031 | Text in which every character stands as its bytes or as any reference is loaded as the bytes of these characters |
| XmlSyntax.AttrsRead | package/lib/mxml/mxml-file.c:2087-2390 | A list of attributes with values in either quote or none, any spelling of their characters and any white space is read as the names and values it means |
| XmlSyntax.DocumentLoads | package/lib/mxml/mxml-file.c:1363-2079 | A document of the grammar with an element as its root loads as exactly the tree it means, adjacent text joined and empty text dropped |
| XmlSyntax.PrologLoads | package/lib/mxml/mxml-file.c:1363-2079 | A processing instruction as the root, with the document behind it as its children |
| XmlSyntax.QuotedNameFails | package/lib/mxml/mxml-file.c:2180-2265 | An attribute name in quotes is never accepted |
| XmlRoundTrip.LoadSaved | package/lib/mxml/mxml-file.c:1363-3099 | Loading what was saved, for any wrap margin, with names of letters, digits and `-._:`, comments, CDATA sections and processing instructions: the tree comes back with adjacent text joined and empty text dropped, and below a `?xml` root without the text behind the last element |
| XmlRoundTrip.VerbatimTag | package/lib/mxml/mxml-file.c:1577-1680 | A comment, CDATA section or instruction whose text ends once is read back whole |
| XmlRoundTrip.RoundTrip | package/lib/mxml/mxml-file.c:1363-3099 | The round trip is exact if and only if no text is empty or next to other text, and none stands last below a `?xml` root |
| XmlReader.SaveThenLoad | package/lib/mxml/mxml-file.c:172-245 | The same for the pointer tree, through both loops |

## Left out

- DiffApply.GenerateThenApply: both roots are containers of the same kind, because a patch for the root path is not applicable in the C code (a NULL parent is dereferenced); such outcomes are `Undefined` in `Patch`.
- MergeInverse.GenerateThenMergeToSource: the generator may have sorted more of its source than `Walked` says, but only inside members that the patch drops; and objects inside arrays of the patch may have their members in sorted order.
- JsonMinify.MinifyInPlace: the text has no unclosed literal or comment; the C code steps over the terminating NUL of such a text.
- HttpExecute.HttpParser.Feed: says nothing about a stream that leaves HTTP (an upgrade): the bytes behind it are not fed to the parser by a correct caller.
- HttpExecute.HttpParser.Execute: the buffer is shorter than 2^32 bytes minus the header limit; beyond that the 32-bit `nread` wraps around.
- HttpUrl.UrlInfo.ParseUrl: texts of at most 65535 bytes, because offsets and lengths of the field table are 16-bit integers.
- HttpMessage.MessageRead: header fields whose value goes on in another line are plain ones with a first line that is not empty; a folded length or list is only part of `HttpStep`.
- PatchRfc.RfcApplied: paths other than the root, which the C code cannot patch; documents without stale links, because a stale one may make a list a circle.
- PatchRfc.ErrorsNoticed: tokens at arrays are indices as RFC 6901 writes them; others are read by `atoi` (`DashRemovesFirst`).
- JsonSyntax.TextReads: texts outside the grammar that the parser accepts as well, such as an exponent without digits, are only part of `JsonParse`.
- JsonText.Render: the indentation of the formatted print is stated by its definition alone; the round trips say that it is white space.
- JsonBuffer.PrintBuffered: texts up to 2^30 bytes, because sizes are 32-bit signed integers.
- JsonBuffer.Pow2Gt: that the result is a power of two; only that it is large enough and does not overflow.
- JsonParse.PrintParse: numbers are ints; the text of other doubles is a parameter `floats` of the printers, and `parse_number` is modelled with exact arithmetic, without the rounding of doubles and the overflow of its exponent counter.
- JsonParse.ParseWithOpts: an unclosed string literal at the end of a text is accepted, as in the C code; the error position is not part of this model.
- Callbacks of the HTTP parser that return an error, pause it, or write its fields; the non-strict mode; the tables of method and status names. `on_headers_complete` may say that there is no body or that the protocol is left.
- Allocation failure, allocator hooks, cJSON references and constant strings, sharing between trees.
- In-place tree edits of cJSON_Utils other than the sort and the decoding are modelled on values that carry the one link that can be wrong (`Json.Stale`); SortChain proves on the heap what sort, detach and append make of a list with such a link. A list in which that link is followed is no tree any more, and nothing is said about it.
- The generators also sort the target in place, and a `test` the value in its patch; the model does not return these.
- Integer overflow of an array index in a pointer and of `atoi` in a patch path: indices are unbounded.
- XmlSearch.WalkNext: the node lies in the tree under the top node; a walk that starts outside of it is not part of this model.
- XmlIndex.SearchTree: a search by value alone in an index made for all names; `UnnamedIsComplete` says when it is right.
- XmlIndex.IndexNew: with neither an element nor an attribute given, the top node is an element; the C code reads an element name from it in any case.
- XmlNode.Add: a node is not placed below itself.
- XmlRoundTrip.LoadSaved: names of letters, digits and `-._:`, or of comments and the like that end once; attributes with values, each name once; text and values without control characters other than tab and line ends and without U+FEFF, which the loader rejects or skips.
- XmlLoad.LoadString: a UTF-16 mark counts as an invalid byte; named entities are a parameter, numeric ones do not overflow.
- XmlReader.Source.Getc: the UTF-16 encodings; a UTF-16 mark reads as an invalid byte.
- XmlReader.LoadText: open elements are a stack of values, not linked nodes; error messages and line numbers are not part of this model, nor are SAX callbacks, value types other than opaque, and loading below an existing top node.
- Mini-XML's integer, real, text and custom nodes, whitespace callbacks, file and descriptor input and output, reference counts, and the change of attributes.
- The Ethernet, sensor, display and console components: they are mostly input and output.
