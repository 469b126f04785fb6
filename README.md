# StaxMate core, modelled in Dafny

StaxMate is a thin layer over a Stax2 stream reader and writer.

- **Read side.** Cursors walk the reader's event stream. A *nested* (hierarchic)
  cursor returns the direct children of one element. A *flattening*
  (descendant) cursor returns every event inside it. A cursor moves from
  INITIAL to ACTIVE to CLOSED, and to HAS_CHILD while a child cursor it opened
  is in use. Before it reads on, a cursor skips what its child cursor left
  unread, so every cursor stays in step with the one shared stream.
- **Write side.** Output containers write their children in document order.
  The containers are the root fragment, elements and buffered fragments. A
  child added while an earlier sibling is held back (buffered) is queued.
  Queued children are written as soon as nothing before them is held back.
  An element is a small state machine (NONE, ATTRS, CHILDREN, CLOSED), and
  that state decides whether an attribute can still be written.
- **Helpers.** The model also covers the typed-value helpers (trim, boolean
  and integer parsing) and the DOM converter's namespace stack,
  qualified-name cache and DOCTYPE builder.

The project is organised as follows:

| file | contents |
|---|---|
| `wrappers.dfy` | Option and Result |
| `java_strings.dfy` | Java integer ranges; `Integer.parseInt`/`Long.parseLong` and `String.valueOf` on integers, with the round trip between them |
| `xml_tokens.dfy` | The Stax2 event stream: tokens with the reader's depth, well-formedness, and the reader as a class whose `Next` advances one token |
| `element_info.dfy` | Element snapshots (`SMElementInfo`), the tracking modes, and path descriptions |
| `cursor_spec.dfy` | The cursors' behaviour as functions over the token sequence, and the theorems about them |
| `cursors.dfy` | The cursor as a class whose fields the methods update, each method proved equal to its function in `cursor_spec.dfy` |
| `data_util.dfy` | `DataUtil`: trim, `ensureNotEmpty`, and the boolean and integer parsers |
| `dom_converter.dfy` | `DOMConverter`: the DOCTYPE text builder, `QNameRecycler` and `NsStack` |
| `output.dfy` | The output containers |

On the write side, the Java objects link to each other: parent links plus
first-child, last-child and next-sibling links. The model keeps every
container in one arena, `OutputContext.nodes`, indexed by creation order.
Each node holds its container, its parent's index and its queue of pending
children. A child is always created after its parent, so it always has a
larger index. That ordering is what lets the mutually recursive output
methods terminate. Everything written to the stream writer is appended to
`OutputContext.trace`.

Every output method keeps two invariants:

- `Valid` (`Shaped`): every container's queue agrees with its state. A root
  or element that has not started output keeps its children queued. An
  element taking attributes has nothing queued.
- `Evolves`: states only move forward, and parents never change once set.

Integer values are unbounded in the model. Where Java's `int` or `long`
range matters (parsing, `String.valueOf`), the range is explicit (`INT_MIN`,
`LONG_MAX`, ...). The element and node counters are left unbounded (see
below).

## Model

| member | source | states |
|---|---|---|
| XmlTokens.WellFormedDepths | src/java/org/codehaus/staxmate/in/SMInputCursor.java:249-264 | On a well-formed stream, the number of open elements is never negative, and START_ELEMENT and END_ELEMENT report a depth of at least 1 (the Stax2 depth the cursors' base depths rely on) |
| XmlTokens.TokenStream.Next | src/java/org/codehaus/staxmate/in/SMHierarchicCursor.java:79-81 | `next()` advances exactly one token and returns its kind; at the end of input it fails with "no more events" and does not move |
| ElementTracking.ConstructElementInfo | src/java/org/codehaus/staxmate/in/SMInputCursor.java:1547-1558 | A configured factory's snapshot is used as it is. Otherwise the snapshot links the parent and previous-sibling snapshots, copies the name, and records zero-based node and element indices and the parent count as depth |
| ElementTracking.AppendPathIsAncestry | src/java/org/codehaus/staxmate/in/SMInputCursor.java:1498-1516 | `appendPathDesc` writes one `/name[...]` segment per ancestor, outermost first: exactly the segments of the parent chain, in order |
| ElementTracking.PathDescDot | src/java/org/codehaus/staxmate/in/SMInputCursor.java:1471-1496 | The path description is "." exactly when neither a parent element nor tracking is available |
| ElementTracking.PathDescAncestors | src/java/org/codehaus/staxmate/in/SMInputCursor.java:1471-1496 | Otherwise it is the ancestors' segments, followed by the current element when on a tracked START_ELEMENT, or by a wildcard step with the node count |
| CursorSpec.DrainTo | src/java/org/codehaus/staxmate/in/CursorBase.java:224-237 | Stops at the first END_ELEMENT of the target depth, having passed only deeper END_ELEMENTs. A shallower END_ELEMENT fails with (expected, actual) depths. END_DOCUMENT fails as unexpected. Running out of input fails as "no more events" |
| CursorSpec.DrainAtTarget | src/java/org/codehaus/staxmate/in/CursorBase.java:224-233 | When the stream is already on the target END_ELEMENT, no token is consumed |
| CursorSpec.DrainFromInside | src/java/org/codehaus/staxmate/in/CursorBase.java:210-238 | On a well-formed stream, draining from inside an element of depth d always reaches that element's END_ELEMENT |
| CursorSpec.SkipSubtree | src/java/org/codehaus/staxmate/in/SMHierarchicCursor.java:145-174 | Skipping a START_ELEMENT's subtree ends strictly after it, on the END_ELEMENT one level below the cursor's base |
| CursorSpec.LoopBody | src/java/org/codehaus/staxmate/in/SMHierarchicCursor.java:64-115 | One pass of the getNext loop either goes round again (stream and node count strictly advanced) or leaves. It leaves with an event the filter accepts, which becomes the current event; or closing, with no current event, exactly at the scope's end; or with a read error |
| CursorSpec.Loop | src/java/org/codehaus/staxmate/in/SMFlatteningCursor.java:99-168 | The whole loop ends with an accepted event the stream is on, or closes at the scope's end, or fails; counters never decrease |
| CursorSpec.Resync | src/java/org/codehaus/staxmate/in/SMHierarchicCursor.java:50-62 | Resynchronising before a read (past the open child, or past the subtree a nested cursor is on) never moves the stream backwards |
| CursorSpec.GetNextSpec | src/java/org/codehaus/staxmate/in/SMHierarchicCursor.java:44-121 | On a CLOSED cursor getNext returns null and changes nothing. A null result leaves the cursor CLOSED with no current event. A returned event is the stream's current token, accepted by the filter, and leaves the cursor ACTIVE with no child |
| CursorSpec.HierarchicNeverYieldsEnd | src/java/org/codehaus/staxmate/in/SMHierarchicCursor.java:83-91 | A nested cursor never returns END_ELEMENT or END_DOCUMENT |
| CursorSpec.LoopBodyOnWellFormed | src/java/org/codehaus/staxmate/in/SMHierarchicCursor.java:64-115 | On a well-formed stream, a pass that starts in step stays in step or leaves without error |
| CursorSpec.LoopOnWellFormed | src/java/org/codehaus/staxmate/in/SMFlatteningCursor.java:99-168 | On a well-formed stream, the loop of an in-step cursor never fails |
| CursorSpec.OpenChildSynced | src/java/org/codehaus/staxmate/in/SMInputCursor.java:1234-1250 | Opening a child on a START_ELEMENT keeps the parent in step (HAS_CHILD, with the child's base at that element's depth), and the new child starts in step |
| CursorSpec.GetNextOnWellFormed | src/java/org/codehaus/staxmate/in/SMFlatteningCursor.java:123-130 | On a well-formed stream getNext never fails and keeps the cursor in step. A nested cursor returns only direct children. A flattening cursor returns only events inside its element (never its closing END_ELEMENT), with a parent count at least its base. A non-root cursor closes exactly at the END_ELEMENT of its base depth |
| CursorSpec.FlatteningAsWrittenReturnsClosingEnd | src/java/org/codehaus/staxmate/in/SMFlatteningCursor.java:128 | With the comparison as written (`<`), a descendant cursor of an empty root element returns the root's END_ELEMENT, and the next getNext fails on END_DOCUMENT; with `<=` it closes at once |
| CursorSpec.FlatteningAsWrittenReadsPastScope | src/java/org/codehaus/staxmate/in/SMFlatteningCursor.java:128 | With the comparison as written (`<`), a descendant cursor of `<a/>` in `<root><a/><b/></root>` returns `a`'s END_ELEMENT and then `b`'s START_ELEMENT, which lies outside its scope; with `<=` it closes on `a`'s END_ELEMENT |
| CursorSpec.MatchingEndElement | src/java/org/codehaus/staxmate/in/SMInputCursor.java:249-264 | On a well-formed stream every START_ELEMENT has a matching END_ELEMENT at the same depth, with only deeper END_ELEMENTs between, and the flattening parent count is equal on both |
| CursorSpec.LoopText | src/java/org/codehaus/staxmate/in/SMFlatteningCursor.java:99-168 | A text-only descendant cursor inside its element returns the next text event, or closes at the element's END_ELEMENT when no text is left |
| CursorSpec.LoopClosesAtEnd | src/java/org/codehaus/staxmate/in/SMFlatteningCursor.java:121-130 | A text-only descendant cursor inside its element that closes does so on the element's END_ELEMENT, never past it |
| CursorSpec.CollectTextFrom | src/java/org/codehaus/staxmate/in/SMInputCursor.java:489-507 | Collecting from inside an element gives the accumulated text followed by the concatenated text of the remaining text events up to that element's END_ELEMENT, and stops on that END_ELEMENT |
| CursorSpec.CollectTextOnWellFormed | src/java/org/codehaus/staxmate/in/SMInputCursor.java:461-508 | On a well-formed stream, collecting from a START_ELEMENT gives exactly the concatenated text of the text events (CDATA and, when asked, ignorable white space included) between it and its matching END_ELEMENT, "" when there are none, and the descendant cursor stops on that END_ELEMENT |
| CursorSpec.CollectDescendantOnWellFormed | src/java/org/codehaus/staxmate/in/SMInputCursor.java:461-508 | For the descendant cursor collectDescendantText opens on the START_ELEMENT of an active, synchronised cursor over a well-formed stream: the text between that START_ELEMENT and its matching END_ELEMENT, with the stream left on that END_ELEMENT |
| Cursors.NameMatches | src/java/org/codehaus/staxmate/in/SMInputCursor.java:674-719 | hasName holds exactly for a named event with the expected local name whose namespace URI (elements only) is blank when the expected one is blank, and equal to it otherwise |
| Cursors.NameMatchesBlankNamespace | src/java/org/codehaus/staxmate/in/SMInputCursor.java:714-715 | A null and an empty expected namespace URI match the same events |
| Cursors.LocalNameOf | src/java/org/codehaus/staxmate/in/SMInputCursor.java:565-586 | Elements, entity references, processing instructions and the DTD have a local name; other events have none |
| Cursors.FindAttr | src/java/org/codehaus/staxmate/in/SMInputCursor.java:1150 | An attribute is found exactly when one has that local name and (unless the URI is null) that namespace URI, and its value is returned |
| Cursors.Cursor.constructor | src/java/org/codehaus/staxmate/in/SMInputCursor.java:150-166 | A new cursor is INITIAL, with no current event, zero counts and no child. A child cursor's base is the stream depth at creation, and it inherits the parent's tracking mode, tracked element and snapshot factory |
| Cursors.Cursor.SetFilter | src/java/org/codehaus/staxmate/in/SMInputCursor.java:168-170 | Replaces the filter and nothing else |
| Cursors.Cursor.SetElementTracking | src/java/org/codehaus/staxmate/in/SMInputCursor.java:180-182 | Replaces the tracking mode and nothing else |
| Cursors.Cursor.SetElementInfoFactory | src/java/org/codehaus/staxmate/in/SMInputCursor.java:193-195 | Replaces the snapshot factory and nothing else |
| Cursors.Cursor.NotAccessibleError | src/java/org/codehaus/staxmate/in/CursorBase.java:286-294 | The "not accessible" error names the operation and says whether an open child cursor is the reason |
| Cursors.Cursor.ParentCount | src/java/org/codehaus/staxmate/in/SMFlatteningCursor.java:47-73 | A nested cursor reports its base. A flattening cursor reports its child's base while a child is open, its base before the first event and once closed, and otherwise the stream depth, one less on START_ELEMENT and END_ELEMENT |
| Cursors.Cursor.GetText | src/java/org/codehaus/staxmate/in/SMInputCursor.java:448-455 | The current token's text exactly when ACTIVE, and the "not accessible" error otherwise |
| Cursors.Cursor.GetLocalName | src/java/org/codehaus/staxmate/in/SMInputCursor.java:565-586 | The current event's local name exactly when ACTIVE, and the "not accessible" error otherwise |
| Cursors.Cursor.HasLocalName | src/java/org/codehaus/staxmate/in/SMInputCursor.java:651-662 | Refused when not ACTIVE, then refused for a null name; otherwise true exactly when the current local name equals the expected one |
| Cursors.Cursor.HasName | src/java/org/codehaus/staxmate/in/SMInputCursor.java:674-719 | Answers exactly when ACTIVE, with NameMatches on the current token |
| Cursors.Cursor.AttrValue | src/java/org/codehaus/staxmate/in/SMInputCursor.java:888-895 | When ACTIVE, succeeds exactly for an index within the current token's attributes and gives that attribute's value; otherwise "not accessible" or "index out of range" |
| Cursors.Cursor.AttrBooleanValue | src/java/org/codehaus/staxmate/in/SMInputCursor.java:967-982 | The attribute's value parsed as a boolean, over the corrected table (see Findings); a parse failure is wrapped with the attribute's index |
| Cursors.Cursor.AttrBooleanValueOr | src/java/org/codehaus/staxmate/in/SMInputCursor.java:1000-1010 | Refused only when the cursor is not ACTIVE or the index is out of range. Otherwise it never fails: the parsed boolean when the trimmed value is in the table, the default for any other value, a blank one included (corrected table, see Findings) |
| Cursors.Cursor.AttrIntValue | src/java/org/codehaus/staxmate/in/SMInputCursor.java:1026-1041 | The attribute's value parsed as a Java int; a parse failure is wrapped |
| Cursors.Cursor.AttrIntValueOr | src/java/org/codehaus/staxmate/in/SMInputCursor.java:1059-1069 | The default for a blank value, the parsed int otherwise |
| Cursors.Cursor.AttrLongValue | src/java/org/codehaus/staxmate/in/SMInputCursor.java:1085-1100 | The attribute's value parsed as a Java long; a parse failure is wrapped |
| Cursors.Cursor.AttrLongValueOr | src/java/org/codehaus/staxmate/in/SMInputCursor.java:1118-1128 | The default for a blank value, the parsed long otherwise |
| Cursors.Cursor.AttrIntValueByName | src/java/org/codehaus/staxmate/in/SMInputCursor.java:1141-1152 | The named attribute's value parsed as an int; a missing attribute is a missing value, and failures are not wrapped |
| Cursors.Cursor.AttrIntValueByNameOr | src/java/org/codehaus/staxmate/in/SMInputCursor.java:1159-1170 | The default for a missing or blank attribute, the parsed int otherwise |
| Cursors.Cursor.Invalidate | src/java/org/codehaus/staxmate/in/CursorBase.java:247-258 | This cursor and every cursor below it become CLOSED, with no current event and no child; counters and configuration are kept |
| Cursors.Cursor.RewindPastChild | src/java/org/codehaus/staxmate/in/CursorBase.java:210-238 | Detaches and closes the child chain, then moves the stream as DrainTo does to the END_ELEMENT at the child's base; the cursor's own fields are kept |
| Cursors.Cursor.ReadToEndElement | src/java/org/codehaus/staxmate/in/CursorBase.java:224-237 | The stream ends where DrainTo says, and the error is DrainTo's |
| Cursors.Cursor.SkipToEndElement | src/java/org/codehaus/staxmate/in/SMHierarchicCursor.java:145-174 | The stream ends where SkipSubtree says, and the error is SkipSubtree's |
| Cursors.Cursor.Pass | src/java/org/codehaus/staxmate/in/SMFlatteningCursor.java:99-167 | One pass leaves the cursor's fields and result as LoopBody says |
| Cursors.Cursor.Classify | src/java/org/codehaus/staxmate/in/SMFlatteningCursor.java:121-140 | The part of a pass that counts the token, closes at the scope's END_ELEMENT and fails on END_DOCUMENT agrees with LoopBody |
| Cursors.Cursor.Admit | src/java/org/codehaus/staxmate/in/SMFlatteningCursor.java:142-167 | The filter, tracking and subtree-skip part of a pass agrees with LoopBody |
| Cursors.Cursor.RunLoop | src/java/org/codehaus/staxmate/in/SMHierarchicCursor.java:64-120 | The loop leaves the cursor's fields and result as Loop says |
| Cursors.Cursor.GetNext | src/java/org/codehaus/staxmate/in/SMHierarchicCursor.java:44-121 | The result and the new cursor state are exactly GetNextSpec's, and the whole child chain is closed when a child was open |
| Cursors.Cursor.OpenCursor | src/java/org/codehaus/staxmate/in/SMInputCursor.java:1234-1250 | HAS_CHILD, INITIAL or CLOSED, and ACTIVE off a START_ELEMENT are three distinct refusals that change nothing. On a START_ELEMENT it creates a fresh child cursor (nested or flattening) and the parent moves to HAS_CHILD |
| Cursors.Cursor.CollectDescendantText | src/java/org/codehaus/staxmate/in/SMInputCursor.java:469-508 | Refused when not ACTIVE, and refused off a START_ELEMENT, without reading. Otherwise the result is the text CollectText gives for a text-only flattening child (or its read error); the cursor is left in HAS_CHILD and the stream where that child stopped. On a well-formed stream, from a synchronised cursor, the result is the text between the START_ELEMENT and its matching END_ELEMENT, and the stream is left on that END_ELEMENT |
| DataUtil.JavaTrimSlice | src/java/org/codehaus/staxmate/util/DataUtil.java:83-92 | Trimming removes exactly a leading and a trailing run of characters at or below U+0020 and leaves ends that are above it |
| DataUtil.JavaTrimPadding | src/java/org/codehaus/staxmate/util/DataUtil.java:83-92 | Padding a text with white space on either side does not change its trimmed form |
| DataUtil.TrimUntrimmed | src/java/org/codehaus/staxmate/util/DataUtil.java:74-92 | A non-empty text without white space at its ends is returned unchanged by trim and ensureNotEmpty |
| DataUtil.Trim | src/java/org/codehaus/staxmate/util/DataUtil.java:83-92 | null for null or blank input; otherwise the non-empty trimmed text |
| DataUtil.EnsureNotEmpty | src/java/org/codehaus/staxmate/util/DataUtil.java:74-81 | Succeeds exactly when trim gives a text, and gives that text; fails with "missing value" otherwise |
| DataUtil.ParseBooleanAsWritten | src/java/org/codehaus/staxmate/util/DataUtil.java:24-33 | As written, the lookup succeeds exactly for the trimmed texts "true", "false", "0" and "1" |
| DataUtil.ParseBooleanAsWrittenSwapsDigits | src/java/org/codehaus/staxmate/util/DataUtil.java:18-19 | As written, "1" parses to false and "0" to true |
| DataUtil.ParseBoolean | src/java/org/codehaus/staxmate/util/DataUtil.java:24-33 | With the corrected table (see Findings): missing value exactly for null or blank input; succeeds exactly for the trimmed texts "true", "false", "0" and "1", with true exactly for "true" and "1"; any other text is reported as invalid |
| DataUtil.ParseBooleanDigits | src/java/org/codehaus/staxmate/util/DataUtil.java:15-17 | "1" parses to true and "0" to false, as section 3.2.2 of XML Schema Part 2 defines |
| DataUtil.ParseBooleanRoundTrip | src/java/org/codehaus/staxmate/util/DataUtil.java:24-33 | Parsing the text written for a boolean gives it back |
| DataUtil.ParseBooleanPadding | src/java/org/codehaus/staxmate/util/DataUtil.java:24-33 | Surrounding white space does not change the parsed boolean |
| DataUtil.ParseBooleanOr | src/java/org/codehaus/staxmate/util/DataUtil.java:35-40 | With the corrected table (see Findings): the parsed boolean when the strict form succeeds, and the default otherwise (null, blank, or not in the table); it never fails |
| DataUtil.ParseBooleanOrWith | src/java/org/codehaus/staxmate/util/DataUtil.java:35-40 | Over either table: the strict form's boolean when the lookup succeeds, the default otherwise |
| DataUtil.ParseBooleanOrAsWritten | src/java/org/codehaus/staxmate/util/DataUtil.java:35-40 | With the table as written: the as-written strict form's boolean when it succeeds, the default otherwise |
| DataUtil.ParseBooleanOrAsWrittenSwapsDigits | src/java/org/codehaus/staxmate/util/DataUtil.java:18-19 | As written, the lenient form reads "1" as false and "0" as true, whatever the default |
| DataUtil.ParseBooleanOrDigits | src/java/org/codehaus/staxmate/util/DataUtil.java:15-17 | With the corrected table, the lenient form reads "1" as true and "0" as false, whatever the default |
| DataUtil.ParseNumber | src/java/org/codehaus/staxmate/util/DataUtil.java:42-47 | Missing value exactly for null or blank input; a result is in range and is what Java's parser gives for the trimmed text; every other input is a parse failure |
| DataUtil.ParseNumberOr | src/java/org/codehaus/staxmate/util/DataUtil.java:49-53 | The default for null or blank input, and the strict parse otherwise |
| DataUtil.ParseInt | src/java/org/codehaus/staxmate/util/DataUtil.java:42-47 | A result is the int value of the trimmed text and lies in Java's int range; a trimmed text that is not an int gives an error; missing value exactly for null or blank input |
| DataUtil.ParseIntOr | src/java/org/codehaus/staxmate/util/DataUtil.java:49-53 | The default for null or blank input, and parseInt otherwise |
| DataUtil.ParseLong | src/java/org/codehaus/staxmate/util/DataUtil.java:55-60 | A result is the long value of the trimmed text and lies in Java's long range; a trimmed text that is not a long gives an error; missing value exactly for null or blank input |
| DataUtil.ParseLongOr | src/java/org/codehaus/staxmate/util/DataUtil.java:62-66 | The default for null or blank input, and parseLong otherwise |
| DataUtil.ParseNumberRoundTrip | src/java/org/codehaus/staxmate/util/DataUtil.java:42-60 | Parsing the decimal text of any in-range integer gives it back |
| DataUtil.ParseIntLongRoundTrip | src/java/org/codehaus/staxmate/util/DataUtil.java:42-60 | parseInt and parseLong invert String.valueOf over their ranges |
| JavaStrings.ParseIntToString | src/java/org/codehaus/staxmate/util/DataUtil.java:45-46 | The integer parser inverts decimal formatting over any range containing the value |
| JavaStrings.ParseIntegerShape | src/java/org/codehaus/staxmate/util/DataUtil.java:45-46 | Accepted numbers are an optional sign followed by at least one digit |
| DomConverter.BuildDtdAsWrittenGluesKeyword | src/main/java/org/codehaus/staxmate/dom/DOMConverter.java:463-468 | As written, root name "html" with system id "x.dtd" gives `<!DOCTYPE htmlSYSTEM "x.dtd">` |
| DomConverter.BuildDtdPublic | src/main/java/org/codehaus/staxmate/dom/DOMConverter.java:472-477 | Corrected builder (see Findings): with a public id, the root name is followed by ` PUBLIC "pub" "sys"` |
| DomConverter.BuildDtdSystem | src/main/java/org/codehaus/staxmate/dom/DOMConverter.java:466-471 | Corrected builder (see Findings): with a system id only, the root name is followed by ` SYSTEM "sys"` |
| DomConverter.BuildDtdNoExternalId | src/main/java/org/codehaus/staxmate/dom/DOMConverter.java:464-479 | Without either id, the root name is followed only by the internal-subset clause and `>` |
| DomConverter.BuildDtdSubset | src/main/java/org/codehaus/staxmate/dom/DOMConverter.java:480-486 | A non-empty internal subset ends the declaration as ` [subset]>` |
| DomConverter.BuildDtdNoSubset | src/main/java/org/codehaus/staxmate/dom/DOMConverter.java:480-486 | An empty internal subset is the same as none |
| DomConverter.BuildDtdInsertsSeparator | src/main/java/org/codehaus/staxmate/dom/DOMConverter.java:463-479 | With an external id, the corrected declaration is the as-written one with one space inserted after the root name |
| DomConverter.BuildDtdAsWrittenAgrees | src/main/java/org/codehaus/staxmate/dom/DOMConverter.java:464-488 | Without an external id, the as-written and corrected declarations are identical |
| DomConverter.QNameRecycler.constructor | src/main/java/org/codehaus/staxmate/dom/DOMConverter.java:579-583 | A new cache is empty |
| DomConverter.QNameRecycler.GetQualified | src/main/java/org/codehaus/staxmate/dom/DOMConverter.java:585-599 | Always returns `prefix:localName`, whether it came from the cache or not, and caches that key and name |
| DomConverter.LookupNoneIff | src/main/java/org/codehaus/staxmate/dom/DOMConverter.java:649-659 | A prefix has no binding exactly when no bound pair has that prefix |
| DomConverter.LookupAfterAdd | src/main/java/org/codehaus/staxmate/dom/DOMConverter.java:661-674 | After adding a binding, that prefix maps to the new URI and every other prefix is unchanged |
| DomConverter.PredefsBindings | src/main/java/org/codehaus/staxmate/dom/DOMConverter.java:611-615 | The predefined bindings bind `xml` and `xmlns` to their reserved URIs (section 3 of Namespaces in XML 1.0) and the empty prefix to no namespace |
| DomConverter.NormalizePrefix | src/main/java/org/codehaus/staxmate/dom/DOMConverter.java:663-665 | A null prefix is bound as the empty prefix |
| DomConverter.NsStack.RootInstance | src/main/java/org/codehaus/staxmate/dom/DOMConverter.java:630-634 | The root stack shares the predefined array and holds exactly the predefined bindings |
| DomConverter.NsStack.Share | src/main/java/org/codehaus/staxmate/dom/DOMConverter.java:623-628 | A stack over a given array and end holds exactly that array and end |
| DomConverter.NsStack.ChildInstance | src/main/java/org/codehaus/staxmate/dom/DOMConverter.java:636-645 | A child stack has the same bindings. It copies into a fresh 16-slot array when the parent holds the shared predefined array, and shares the parent's array otherwise |
| DomConverter.NsStack.HasBinding | src/main/java/org/codehaus/staxmate/dom/DOMConverter.java:649-659 | True exactly when the most recent binding of the prefix is the URI |
| DomConverter.NsStack.AddBinding | src/main/java/org/codehaus/staxmate/dom/DOMConverter.java:661-674 | Appends the (prefix, URI) pair to the bindings. A full array is replaced by a fresh one of twice the size, and otherwise only the two slots at the end are written |
| DomConverter.NsStack.Grow | src/main/java/org/codehaus/staxmate/dom/DOMConverter.java:666-670 | The array is replaced by a fresh one of twice the length with the old contents at the front |
| DomConverter.ChildScopeBinding | src/main/java/org/codehaus/staxmate/dom/DOMConverter.java:636-674 | A binding added in a child scope is seen by the child's hasBinding, while the parent's bindings are unchanged (the shared array is written only past the parent's end) |
| Output.ResolveNamespace | src/main/java/org/codehaus/staxmate/out/SMOutputContainer.java:374-385 | A null namespace becomes the empty namespace. One valid in this context is kept. Any other is replaced by this context's namespace for the same URI |
| DomConverter.BuildDtdAsWrittenFrame | src/main/java/org/codehaus/staxmate/dom/DOMConverter.java:461-486 | The as-written declaration starts with `<!DOCTYPE ` and the root name and ends with `>` |
| DomConverter.BuildDtdFrame | src/main/java/org/codehaus/staxmate/dom/DOMConverter.java:461-486 | The corrected declaration starts with `<!DOCTYPE ` and the root name and ends with `>` |
| Output.StateAfterStartAsWritten | src/java/org/codehaus/staxmate/out/SMOutputElement.java:297-304 | As written, writing the start tag always moves the element to OUTPUT_ATTRS |
| Output.StartAsWrittenKeepsAttributesOpen | src/java/org/codehaus/staxmate/out/SMOutputElement.java:175-211 | A blocked element with a held-back fragment queued, given its start tag as written, is left in OUTPUT_ATTRS with that fragment heading its queue: the container invariant breaks, and the news of that fragment's release stops at the element itself, in OUTPUT_ATTRS, the state in which childReleased throws (lines 175-176) |
| Output.StateAfterStart | src/java/org/codehaus/staxmate/out/SMOutputElement.java:297-304 | After the start tag, the element takes attributes exactly when it has no pending children, and is in CHILDREN otherwise |
| Output.OutputContext.NewRootFragment | src/main/java/org/codehaus/staxmate/out/SMRootFragment.java:22-25 | Adds one active, empty root fragment and writes nothing |
| Output.OutputContext.CreateBufferedFragment | src/main/java/org/codehaus/staxmate/out/SMOutputContainer.java:487-490 | Adds one unlinked, held-back, empty fragment and writes nothing |
| Output.OutputContext.NewElement | src/java/org/codehaus/staxmate/out/SMOutputElement.java:72-79 | Adds one unlinked element in OUTPUT_NONE and writes nothing |
| Output.OutputContext.WriteStartElement | src/java/org/codehaus/staxmate/out/SMOutputElement.java:297-304 | Writes the start tag, records the context's namespace count and default namespace, and moves the element to StateAfterStart |
| Output.OutputContext.WriteEndElement | src/java/org/codehaus/staxmate/out/SMOutputElement.java:306-311 | Writes the end tag with the recorded namespace scope and moves the element to OUTPUT_CLOSED |
| Output.OutputContext.LinkNewChild | src/main/java/org/codehaus/staxmate/out/SMOutputContainer.java:583-593 | Appends the child to the end of the container's queue and changes nothing else |
| Output.OutputContext.PopFirst | src/main/java/org/codehaus/staxmate/out/SMOutputContainer.java:611 | Drops the first queued child and changes nothing else |
| Output.OutputContext.LinkParent | src/java/org/codehaus/staxmate/out/SMOutputElement.java:89-99 | A second link is refused with nothing changed. Otherwise the parent is set, and an unblocked element also writes its start tag at once |
| Output.OutputContext.OutputItem | src/java/org/codehaus/staxmate/out/SMOAttribute.java:23-28 | A simple node writes its one event and is done. A child container is done only when it has finished, and never when it may not close |
| Output.OutputContext.FlushFirst | src/main/java/org/codehaus/staxmate/out/SMOutputContainer.java:606-611 | Writes the first queued child and drops it from the queue exactly when it is done |
| Output.OutputContext.CloseAndOutputChildren | src/main/java/org/codehaus/staxmate/out/SMOutputContainer.java:603-615 | Writes and drops queued children in order until one is held back. True exactly when the queue is emptied; a remaining queue starts with a held-back container; a queue of simple nodes is written out in order |
| Output.OutputContext.CloseAllButLastChild | src/main/java/org/codehaus/staxmate/out/SMOutputContainer.java:622-640 | As CloseAndOutputChildren, except that a last child that is a container is written without being closed, so it stays queued |
| Output.OutputContext.FlushPending | src/main/java/org/codehaus/staxmate/out/SMRootFragment.java:40-43 | Closes all children when the container may close, and all but the last otherwise; true exactly when the queue is emptied |
| Output.OutputContext.TakePending | src/main/java/org/codehaus/staxmate/out/SMOutputContainer.java:645-647 | Returns the queue and leaves it empty |
| Output.OutputContext.ForceChildOutput | src/main/java/org/codehaus/staxmate/out/SMOutputContainer.java:642-651 | Empties the queue and forces every queued child container to finish |
| Output.OutputContext.ForceItem | src/main/java/org/codehaus/staxmate/out/SMOutputContainer.java:648-650 | A simple node writes its event; a child container is forced to finish |
| Output.OutputContext.DoOutput | src/main/java/org/codehaus/staxmate/out/SMOutputContainer.java:519-520 | A container other than the root is never done when it may not close, and when it is done it has finished |
| Output.OutputContext.RootDoOutput | src/main/java/org/codehaus/staxmate/out/SMRootFragment.java:33-44 | An inactive root is refused. Otherwise it flushes its queue, and true means the queue is empty |
| Output.OutputContext.BeginElementOutput | src/java/org/codehaus/staxmate/out/SMOutputElement.java:193-202 | An element in OUTPUT_NONE writes its start tag and moves to StateAfterStart; one already started moves to CHILDREN |
| Output.OutputContext.ElementDoOutput | src/java/org/codehaus/staxmate/out/SMOutputElement.java:190-221 | A closed element is refused. A blocked element writes its start tag first. True exactly when it may close and its queue empties, and then its end tag is the last event written; false leaves it in ATTRS or CHILDREN |
| Output.OutputContext.FragmentDoOutput | src/main/java/org/codehaus/staxmate/out/SMOutputContainer.java:519-520 | A held-back fragment writes nothing. A finished one is refused. A released one writes its queue and is done exactly when it may close and its queue empties |
| Output.OutputContext.ForceOutput | src/main/java/org/codehaus/staxmate/out/SMOutputContainer.java:522-523 | A container other than the root, once forced, has finished with an empty queue |
| Output.OutputContext.RootForceOutput | src/main/java/org/codehaus/staxmate/out/SMRootFragment.java:46-54 | An inactive root is refused; otherwise every queued child is forced and the queue is left empty |
| Output.OutputContext.ElementForceOutput | src/java/org/codehaus/staxmate/out/SMOutputElement.java:223-234 | A closed element is refused; otherwise the element ends CLOSED with an empty queue, its end tag the last event written |
| Output.OutputContext.FragmentForceOutput | src/main/java/org/codehaus/staxmate/out/SMOutputContainer.java:522-523 | A finished fragment is refused; otherwise it ends finished with an empty queue, held back or not |
| Output.OutputContext.CanOutputNewChild | src/java/org/codehaus/staxmate/out/SMOutputElement.java:236-258 | A new child can be written at once exactly when the container is writable and its queue has been emptied. A closed container is refused. A started element moves to CHILDREN. A blocked element or an unreached fragment answers false and changes nothing |
| Output.OutputContext.AddSimple | src/main/java/org/codehaus/staxmate/out/SMOutputContainer.java:167-175 | Text, CDATA, comments, entity references and processing instructions are written at once, as the last event and with the arena unchanged, when nothing is queued in an active root, an element past its attributes or a reached fragment (an element taking attributes moves to CHILDREN and writes it too); in a blocked element or an unreached fragment the event is queued last and nothing is written |
| Output.OutputContext.AddBooleanValue | src/main/java/org/codehaus/staxmate/out/SMOutputContainer.java:311-316 | Adds the text "true" or "false" |
| Output.OutputContext.AddIntegerValue | src/main/java/org/codehaus/staxmate/out/SMOutputContainer.java:327-348 | Adds `String.valueOf` of the int or long value |
| Output.OutputContext.AddElement | src/main/java/org/codehaus/staxmate/out/SMOutputContainer.java:366-394 | Creates a child element with the resolved namespace, queues it last, and links it. It writes its start tag (OUTPUT_ATTRS) exactly when the container could output a new child, and stays blocked (OUTPUT_NONE) otherwise |
| Output.OutputContext.NewLinkedElement | src/main/java/org/codehaus/staxmate/out/SMOutputContainer.java:388-391 | Creation, linking and, when not blocked, the start tag, as one step |
| Output.OutputContext.AddFirstCharacters | src/main/java/org/codehaus/staxmate/out/SMOutputContainer.java:430 | Text added to a new element is written at once (moving it to CHILDREN), or queued while it is blocked |
| Output.OutputContext.AddElementWithCharacters | src/main/java/org/codehaus/staxmate/out/SMOutputContainer.java:425-432 | A new child element whose text is written or queued, so it can take no attribute afterwards |
| Output.OutputContext.AddBuffered | src/main/java/org/codehaus/staxmate/out/SMOutputContainer.java:434-442 | A fragment already linked is refused. Otherwise it is queued last under this container |
| Output.OutputContext.AddAndReleaseBuffered | src/main/java/org/codehaus/staxmate/out/SMOutputContainer.java:458-464 | Adds the fragment, then releases it |
| Output.OutputContext.Release | src/main/java/org/codehaus/staxmate/out/SMOutputContainer.java:462 | A held-back fragment is released and its container is told; releasing twice does nothing more |
| Output.OutputContext.ChildReleased | src/java/org/codehaus/staxmate/out/SMOutputElement.java:162-188 | The news climbs (ReleaseStop) through every element in CHILDREN and reached fragment whose queue the released child heads. Where it stops: an inactive root is refused and nothing changes; a blocked element, an unreached fragment, or a root whose queue the child does not head, changes nothing; a root whose queue it heads writes from the front of its queue, as CloseAllButLastChild, leaving every older node alone, and stops only at an empty queue or a queue headed by a container child |
| Output.OutputContext.AddAttribute | src/java/org/codehaus/staxmate/out/SMOutputElement.java:107-133 | Written at once in ATTRS. Dropped while blocked. Refused with "CHILDREN-ADDED" or "ELEMENT-CLOSED" otherwise. The containers are never changed |
| Output.OutputContext.AddIntAttribute | src/java/org/codehaus/staxmate/out/SMOutputElement.java:149-154 | In ATTRS, writes an attribute whose text parses back to the int value |
| Output.OutputContext.CloseRoot | src/main/java/org/codehaus/staxmate/out/SMRootFragment.java:106-122 | A second close does nothing. Otherwise the root tries to close nicely, forces the rest, ends inactive with an empty queue, and flushes the writer last |

## Left out

- The Stax2 reader itself: events are a given token sequence carrying the reader's depth, name, namespace URI, text and attributes. Locations, encodings and the reader's own errors are not modelled.
- Filters are a pure predicate on the current token only (`Filter = Token -> bool`). Java's `SMFilter.accept(SMEvent, SMInputCursor)` also receives the cursor, so a filter that looks at the cursor's depth, counters or tracked element is not modelled; `SMFilter`'s class hierarchy and `SMEvent` lookups are not modelled either.
- `processDescendantText`, `getPath` (element tracking's path object), `getElementInfo`, `readElementAsXxx` and the `char[]` overloads of the text accessors are not modelled.
- `getAttrDoubleValue` and other floating-point accessors: floating point is not modelled.
- Cursors.Cursor: `nodeCount` and `elemCount` are unbounded; Java's `int` wrap-around after 2^31 events is not modelled.
- CursorSpec.GetNextSpec: a cursor in HAS_CHILD without a child cursor (reachable only after an earlier rewind failed part-way, since CursorBase.java:213-214 clears the child before `child.invalidate()` runs at line 216) gives the error NoChildCursor; the Java code instead throws a NullPointerException at `child.invalidate()`. Both refuse the call and leave the cursor as it was.
- CursorSpec.Resync: a flattening cursor's getNext gets past an open child by calling the child's `skipAll` (SMFlatteningCursor.java:92), whose source is not part of this model. The model drains to the END_ELEMENT at the child's base, as `rewindPastChild` does for a nested cursor, so it does not model an error `skipAll` might raise on the way.
- SMOutputContext (namespace binding, prefix generation, the stream writer) is not part of this model. The namespace count and default namespace it reports are constants of `OutputContext`, and a written event is appended to `trace`.
- SMBufferedFragment.java and SMBufferedElement.java are not part of this model. The held-back, released, reached and done states of a buffered fragment follow what SMOutputContainer says of buffered children. `createBufferedElement` and buffered elements are not modelled.
- Output.OutputContext.AddBuffered: requires that the fragment was created after the container (a larger arena index), which Java does not demand. The arena's termination argument rests on it.
- The shared `mNext` link of the Java objects is not modelled: each container owns its queue. So the model cannot show a node queued under two containers.
- Output.OutputContext.Release: states no document-order theorem; only the per-operation contracts and the container invariant are proved.
- Output.OutputContext.AddAttribute: there is no global theorem that every attribute lands in its element's start tag; the state machine and the invariant that an element taking attributes has no queued children stand for it.
- Output.OutputContext.AddSimple: like AddBooleanValue, AddIntegerValue, AddElement and AddElementWithCharacters, it does not state `Evolves` in its contract, only the container's own state change.
- Cursors.Cursor.Pass: follows the corrected end check (`<=`, the SMFlatteningCursor.java:128 row of Findings), not the `<` as written; the as-written behaviour is modelled only by the CursorSpec functions with `DepthBelowBase`.
- Cursors.Cursor.Classify: follows the corrected end check of the SMFlatteningCursor.java:128 row of Findings, as Pass does.
- Cursors.Cursor.RunLoop: follows the corrected end check of the SMFlatteningCursor.java:128 row of Findings, as Pass does.
- Cursors.Cursor.GetNext: follows the corrected end check of the SMFlatteningCursor.java:128 row of Findings; its ensures is GetNextSpec with `DepthAtMostBase`.
- Cursors.Cursor.CollectDescendantText: its descendant cursor follows the corrected end check of the SMFlatteningCursor.java:128 row of Findings.
- Cursors.Cursor.AttrBooleanValue: reads the value over the corrected boolean table (the DataUtil.java:18-19 row of Findings), so "1" is true here, where the source as written gives false.
- Cursors.Cursor.AttrBooleanValueOr: reads the value over the corrected boolean table (the DataUtil.java:35-40 row of Findings).
- DataUtil.ParseBooleanOr: uses the corrected boolean table; the table as written is ParseBooleanOrAsWritten.
- Output.OutputContext.WriteStartElement: leaves the element in StateAfterStart, the corrected half of the SMOutputElement.java:300 row of Findings, not always in OUTPUT_ATTRS as written.
- Output.OutputContext.BeginElementOutput: uses StateAfterStart, the corrected half of the SMOutputElement.java:300 row of Findings.
- Output.OutputContext.ElementDoOutput: uses StateAfterStart, the corrected half of the SMOutputElement.java:300 row of Findings.
- Output.OutputContext.ChildReleased: at the root, what is written is stated through CloseAllButLastChild's contract (the queue shrinks from the front and events are only appended), not as an exact event sequence.
- JavaStrings.ParseInteger: accepts only the ASCII digits '0' to '9'; Java's Integer.parseInt and Long.parseLong also accept the other Unicode decimal digits (Character.digit), which the model rejects as not a number. DataUtil.ParseInt, DataUtil.ParseLong and the cursor's integer attribute accessors inherit this.
- JavaStrings.ParseIntegerShape: states the shape with ASCII digits only, for the same reason as ParseInteger.
- `setIndentation` and the output factories (SMOutputFactory, SMInputFactory) are not modelled.
- DOMConverter's DOM tree building and writing, and Stax2WriterAdapter, are not modelled: they call into DOM and stream-writer code outside the core.

## Findings

| source | as written | input that shows it | evidently intended | confidence | as-written member | corrected member |
|---|---|---|---|---|---|---|
| src/java/org/codehaus/staxmate/in/SMFlatteningCursor.java:128 | The scope ends only at an END_ELEMENT whose depth is below the base depth (`<`), though the comment says `<=` | A descendant cursor of the root element `<r/>`: getNext returns the root's END_ELEMENT, then fails on END_DOCUMENT | `<=`: the cursor closes at its own element's END_ELEMENT | not executed | CursorSpec.FlatteningAsWrittenReturnsClosingEnd | CursorSpec.GetNextOnWellFormed |
| src/java/org/codehaus/staxmate/in/SMFlatteningCursor.java:128 | The same `<` on a nested element: its END_ELEMENT does not close the scope | A descendant cursor of `<a/>` in `<root><a/><b/></root>`: the second getNext returns `<b>`'s START_ELEMENT, which belongs to the parent | `<=`: the cursor closes at `<a/>`'s END_ELEMENT, and collecting stops there | not executed | CursorSpec.FlatteningAsWrittenReadsPastScope | CursorSpec.CollectTextOnWellFormed |
| src/java/org/codehaus/staxmate/util/DataUtil.java:18-19 | "0" maps to true and "1" to false | `parseBoolean("1")` gives false | "1" is true and "0" is false (section 3.2.2 of XML Schema Part 2, which the comment cites) | not executed | DataUtil.ParseBooleanAsWrittenSwapsDigits | DataUtil.ParseBooleanDigits |
| src/java/org/codehaus/staxmate/util/DataUtil.java:35-40 | The lenient `parseBoolean(String, boolean)` looks up the same table, so it inherits the swap | `parseBoolean("1", true)` gives false | "1" is true and "0" is false, whatever the default | not executed | DataUtil.ParseBooleanOrAsWrittenSwapsDigits | DataUtil.ParseBooleanOrDigits |
| src/main/java/org/codehaus/staxmate/dom/DOMConverter.java:468 | `SYSTEM` (and at line 473 `PUBLIC`) is appended right after the root name, with no space | root name "html", system id "x.dtd" gives `<!DOCTYPE htmlSYSTEM "x.dtd">` | A space between the name and the external id (section 2.8 of XML 1.0) | not executed | DomConverter.BuildDtdAsWrittenGluesKeyword | DomConverter.BuildDtdInsertsSeparator |
| src/java/org/codehaus/staxmate/out/SMOutputElement.java:300 | Writing the start tag always sets OUTPUT_ATTRS, even when `doOutput` goes on to write pending children | A root holds a held-back fragment F1, then a blocked element `a` holding a held-back fragment F2. Releasing F1 leads through closeAllButLastChild to `a.doOutput(ctxt, false)`, which leaves `a` in OUTPUT_ATTRS with F2 first in its queue. Releasing F2 then reaches the internal error of childReleased (line 176) | The state moves to OUTPUT_CHILDREN when children follow | not executed | Output.StartAsWrittenKeepsAttributesOpen | Output.StateAfterStart |
