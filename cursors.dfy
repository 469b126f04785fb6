/**
 * The input cursors: one class for both the nested cursor (which iterates
 * over the direct children of an element and skips the subtrees it is not
 * asked to enter) and the flattening cursor (which iterates over every
 * descendant). Cursors share one token stream; only the innermost open
 * cursor may read it. Each stateful operation is proved against the
 * functions of CursorSpec.
 */
module Cursors {
  import opened Wrappers
  import opened XmlTokens
  import opened ElementTracking
  import opened CursorSpec
  import opened DataUtil

  /** Why a cursor operation was refused or failed. */
  datatype CursorError =
    | NotAccessible(operation: string, hasOpenChild: bool)   // the cursor is not ACTIVE
    | ChildAlreadyRequested                               // HAS_CHILD when opening a child cursor
    | NotInActiveState(state: State)                      // INITIAL or CLOSED when opening a child cursor
    | NotOnStartElement(event: Option<EventKind>)         // ACTIVE, but not on a START_ELEMENT
    | Advance(cause: AdvanceError)                        // getNext failed
    | MissingName                                         // a null expected name
    | AttributeIndexOutOfRange(index: int)                // no attribute at this index
    | AttributeValue(index: int, why: DataError)          // a typed value, wrapped as a stream error
    | Data(why: DataError)                                // a typed value, unwrapped

  /** Event kinds that carry a local name: elements, entity references, processing instructions, the DTD. */
  predicate IsNamed(kind: EventKind)
  {
    kind == StartElement || kind == EndElement || kind == EntityReference
    || kind == ProcessingInstruction || kind == Dtd
  }

  /** A null or empty namespace URI. */
  predicate BlankUri(u: Option<string>)
  {
    u.None? || u.value == ""
  }

  /**
   * hasName on event `kind` with stream token `t`: a named event whose local
   * name equals `expLn`, whose namespace URI (only elements have one) is
   * blank when `expNs` is blank and equals `expNs` otherwise.
   */
  function NameMatches(kind: Option<EventKind>, t: Token, expNs: Option<string>, expLn: Option<string>): (b: bool)
    ensures b ==> kind.Some? && IsNamed(kind.value) && t.name.Some? && expLn == t.name
    ensures b && (kind == Some(EntityReference) || kind == Some(ProcessingInstruction) || kind == Some(Dtd)) ==> BlankUri(expNs)
    ensures kind.Some? && IsNamed(kind.value) && t.name.Some? && expLn == t.name ==>
      (b <==> if BlankUri(expNs) then !(kind.value == StartElement || kind.value == EndElement) || BlankUri(t.nsUri)
              else (kind.value == StartElement || kind.value == EndElement) && t.nsUri == expNs)
  {
    if kind.None? || !IsNamed(kind.value) then false
    else
      var uri := if kind.value == StartElement || kind.value == EndElement then t.nsUri else None;
      if t.name.None? || expLn != t.name then false
      else if BlankUri(expNs) then BlankUri(uri)
      else uri.Some? && expNs == uri
  }

  /** A null and an empty expected namespace mean the same: no namespace. */
  lemma NameMatchesBlankNamespace(kind: Option<EventKind>, t: Token, expLn: Option<string>)
    ensures NameMatches(kind, t, None, expLn) == NameMatches(kind, t, Some(""), expLn)
  {
  }

  /** The local name of event `kind` on token `t`: elements, entity references, PI targets and DTD root names. */
  function LocalNameOf(kind: Option<EventKind>, t: Token): (n: Option<string>)
    ensures n.Some? ==> kind.Some? && IsNamed(kind.value) && n == t.name
    ensures kind.Some? && IsNamed(kind.value) ==> n == t.name
  {
    if kind.Some? && IsNamed(kind.value) then t.name else None
  }

  /** The first attribute with local name `localName` and, unless `uri` is null, namespace URI `uri`. */
  function FindAttr(attrs: seq<Attribute>, uri: Option<string>, localName: string): (v: Option<string>)
    ensures v.Some? <==> exists k :: 0 <= k < |attrs| && AttrNamed(attrs[k], uri, localName)
    ensures v.Some? ==> exists k :: 0 <= k < |attrs| && AttrNamed(attrs[k], uri, localName) && v.value == attrs[k].value
  {
    if |attrs| == 0 then None
    else if AttrNamed(attrs[0], uri, localName) then Some(attrs[0].value)
    else
      var v := FindAttr(attrs[1..], uri, localName);
      assert forall k :: 0 < k < |attrs| ==> attrs[k] == attrs[1..][k - 1];
      v
  }

  predicate AttrNamed(a: Attribute, uri: Option<string>, localName: string)
  {
    a.localName == localName && (uri.None? || (if uri.value == "" then BlankUri(a.nsUri) else a.nsUri == uri))
  }

  /** How a finished getNext loop shows: its result and the state it leaves the cursor in. */
  predicate Ends(o: LoopOutcome, r: Result<Option<EventKind>, AdvanceError>, state: State)
  {
    match o
    case Yield(q) => r == Ok(q.currEvent) && state == Active
    case Close(_) => r == Ok(None) && state == Closed
    case Fail(err, _) => r == Err(Read(err)) && state == Active
  }

  class Cursor {
    /** A flattening (descendant) cursor rather than a nested (child) one. */
    const flattening: bool
    const stream: TokenStream
    /** Stream depth when the cursor was created: 0 only for the root cursor. */
    const baseDepth: nat
    /** The element the parent cursor tracked when this cursor was created. */
    const parentTracked: Option<ElementInfo>

    var state: State
    var currEvent: Option<EventKind>
    var nodeCount: nat
    var elemCount: nat
    var filter: Option<Filter>
    var tracking: Tracking
    var factory: Option<InfoFactory>
    var tracked: Option<ElementInfo>
    var child: Cursor?

    /** An open child cursor exists only in HAS_CHILD; the reverse need not hold after a failed rewind. */
    ghost predicate Valid()
      reads this, stream
    {
      stream.Valid() && (child != null ==> state == HasChild)
    }

    /**
     * `chain` lists the cursors below this one, innermost last: this
     * cursor's child, its child, and so on, each distinct and none of them
     * this cursor.
     */
    ghost predicate ChainBelow(chain: seq<Cursor>)
      reads this, chain
    {
      && (child == null <==> |chain| == 0)
      && (|chain| > 0 ==> chain[0] == child && chain[|chain| - 1].child == null)
      && (forall k :: 0 <= k < |chain| - 1 ==> chain[k].child == chain[k + 1])
      && this !in chain
      && (forall k, l :: 0 <= k < l < |chain| ==> chain[k] != chain[l])
    }

    function Cfg(): Config
      reads this
    {
      Config(flattening, baseDepth, filter, tracking, factory, parentTracked)
    }

    function Prog(): Progress
      reads this, stream
    {
      Progress(stream.pos, nodeCount, elemCount, currEvent, tracked)
    }

    function View(): CursorView
      reads this, stream, child
    {
      CursorView(state, Prog(), if child == null then None else Some(child.baseDepth))
    }

    /**
     * A new cursor: INITIAL, no current event, zero counts, no child. A root
     * cursor (no parent) has base depth 0 and no tracking; a child cursor's
     * base depth is the stream depth at creation, and it inherits the
     * parent's tracking mode, tracked element and snapshot factory.
     */
    constructor (parent: Cursor?, stream: TokenStream, filter: Option<Filter>, flattening: bool)
      requires stream.Valid()
      ensures Valid() && this.stream == stream && this.flattening == flattening && this.filter == filter
      ensures baseDepth == (if parent == null then 0 else stream.tokens[stream.pos].depth)
      ensures state == Initial && currEvent.None? && nodeCount == 0 && elemCount == 0
      ensures child == null && tracked.None?
      ensures parent == null ==> tracking == NoTracking && parentTracked.None? && factory.None?
      ensures parent != null ==>
        tracking == parent.tracking && parentTracked == parent.tracked && factory == parent.factory
    {
      this.flattening := flattening;
      this.stream := stream;
      baseDepth := if parent == null then 0 else stream.tokens[stream.pos].depth;
      parentTracked := if parent == null then None else parent.tracked;
      state := Initial;
      currEvent := None;
      nodeCount := 0;
      elemCount := 0;
      this.filter := filter;
      tracking := if parent == null then NoTracking else parent.tracking;
      factory := if parent == null then None else parent.factory;
      tracked := None;
      child := null;
    }

    method SetFilter(f: Option<Filter>)
      modifies this
      ensures filter == f && Cfg() == old(Cfg()).(filter := f) && Prog() == old(Prog())
      ensures state == old(state) && child == old(child)
    {
      filter := f;
    }

    method SetElementTracking(t: Tracking)
      modifies this
      ensures tracking == t && Cfg() == old(Cfg()).(tracking := t) && Prog() == old(Prog())
      ensures state == old(state) && child == old(child)
    {
      tracking := t;
    }

    method SetElementInfoFactory(f: Option<InfoFactory>)
      modifies this
      ensures factory == f && Cfg() == old(Cfg()).(factory := f) && Prog() == old(Prog())
      ensures state == old(state) && child == old(child)
    {
      factory := f;
    }

    /** The data of the current event can be read only in ACTIVE. */
    predicate ReaderAccessible()
      reads this
    {
      state == Active
    }

    /** The "not accessible" error says whether an open child cursor is the reason. */
    function NotAccessibleError(operation: string): (e: CursorError)
      reads this
      ensures e.NotAccessible? && e.operation == operation
      ensures e.hasOpenChild <==> child != null
    {
      NotAccessible(operation, child != null)
    }

    /**
     * getParentCount: the base depth for a nested cursor. A flattening cursor
     * gives its open child's base depth, the base depth before the first
     * event and once closed, and otherwise the stream depth, one less on
     * START_ELEMENT and END_ELEMENT.
     */
    function ParentCount(): (n: int)
      reads this, stream, child
      requires Valid()
      ensures !flattening ==> n == baseDepth
      ensures flattening && child != null ==> n == child.baseDepth
      ensures flattening && child == null && currEvent.None? ==> n == baseDepth
      ensures flattening && child == null && currEvent.Some? ==>
        n == ParentCountOn(true, baseDepth, stream.Current().(kind := currEvent.value))
    {
      if !flattening then baseDepth
      else if child != null then child.baseDepth
      else if currEvent.None? then baseDepth
      else if currEvent.value == StartElement || currEvent.value == EndElement then stream.Current().depth - 1
      else stream.Current().depth
    }

    /** getText: the text of the current event, in ACTIVE only. */
    function GetText(): (r: Result<string, CursorError>)
      reads this, stream
      requires Valid()
      ensures r.Ok? <==> ReaderAccessible()
      ensures r.Ok? ==> r.value == stream.tokens[stream.pos].text
      ensures r.Err? ==> r.error == NotAccessibleError("getText")
    {
      if state != Active then Err(NotAccessibleError("getText")) else Ok(stream.Current().text)
    }

    /** getLocalName: the local name of the current named event, in ACTIVE only. */
    function GetLocalName(): (r: Result<Option<string>, CursorError>)
      reads this, stream
      requires Valid()
      ensures r.Ok? <==> ReaderAccessible()
      ensures r.Ok? ==> r.value == LocalNameOf(currEvent, stream.tokens[stream.pos])
      ensures r.Err? ==> r.error == NotAccessibleError("getLocalName")
    {
      if state != Active then Err(NotAccessibleError("getLocalName")) else Ok(LocalNameOf(currEvent, stream.Current()))
    }

    /** hasLocalName: whether the current event has local name `expName`; a null name is refused. */
    function HasLocalName(expName: Option<string>): (r: Result<bool, CursorError>)
      reads this, stream
      requires Valid()
      ensures !ReaderAccessible() ==> r == Err(NotAccessibleError("hasName"))
      ensures ReaderAccessible() && expName.None? ==> r == Err(MissingName)
      ensures r.Ok? ==> (r.value <==> LocalNameOf(currEvent, stream.tokens[stream.pos]) == expName)
    {
      if state != Active then Err(NotAccessibleError("hasName"))
      else if expName.None? then Err(MissingName)
      else Ok(LocalNameOf(currEvent, stream.Current()) == expName)
    }

    /** hasName: whether the current event has the expected namespace URI and local name. */
    function HasName(expNs: Option<string>, expLn: Option<string>): (r: Result<bool, CursorError>)
      reads this, stream
      requires Valid()
      ensures r.Ok? <==> ReaderAccessible()
      ensures r.Err? ==> r.error == NotAccessibleError("hasName")
      ensures r == Ok(true) ==> currEvent.Some? && IsNamed(currEvent.value) && stream.tokens[stream.pos].name == expLn
      ensures r.Ok? ==> (r.value <==> NameMatches(currEvent, stream.tokens[stream.pos], expNs, expLn))
    {
      if state != Active then Err(NotAccessibleError("hasName")) else Ok(NameMatches(currEvent, stream.Current(), expNs, expLn))
    }

    /** getPathDesc over this cursor's tracking state. */
    function GetPathDesc(): (d: string)
      reads this, stream
    {
      PathDesc(parentTracked, tracking, tracked, currEvent, nodeCount)
    }

    /** getAttrValue(int): the value of attribute `index` of the current event. */
    function AttrValue(index: int): (r: Result<string, CursorError>)
      reads this, stream
      requires Valid()
      ensures !ReaderAccessible() ==> r == Err(NotAccessibleError("getAttributeValue"))
      ensures ReaderAccessible() ==> (r.Ok? <==> 0 <= index < |stream.tokens[stream.pos].attrs|)
      ensures r.Ok? ==> 0 <= index < |stream.tokens[stream.pos].attrs| && r.value == stream.tokens[stream.pos].attrs[index].value
      ensures ReaderAccessible() && r.Err? ==> r.error == AttributeIndexOutOfRange(index)
    {
      AttrValueFor("getAttributeValue", index)
    }

    /** The attribute lookup the typed accessors share, reporting `operation` when not accessible. */
    function AttrValueFor(operation: string, index: int): (r: Result<string, CursorError>)
      reads this, stream
      requires Valid()
      ensures !ReaderAccessible() ==> r == Err(NotAccessibleError(operation))
      ensures ReaderAccessible() ==> (r.Ok? <==> 0 <= index < |stream.tokens[stream.pos].attrs|)
      ensures r.Ok? ==> 0 <= index < |stream.tokens[stream.pos].attrs| && r.value == stream.tokens[stream.pos].attrs[index].value
      ensures ReaderAccessible() && r.Err? ==> r.error == AttributeIndexOutOfRange(index)
    {
      var attrs := stream.Current().attrs;
      if state != Active then Err(NotAccessibleError(operation))
      else if 0 <= index < |attrs| then Ok(attrs[index].value)
      else Err(AttributeIndexOutOfRange(index))
    }

    /** A typed read of attribute `index` with the parse failure wrapped as a stream error. */
    function Wrapped<T>(index: int, parsed: Result<T, DataError>): (r: Result<T, CursorError>)
      ensures parsed.Ok? ==> r == Ok(parsed.value)
      ensures parsed.Err? ==> r == Err(AttributeValue(index, parsed.error))
    {
      match parsed
      case Ok(v) => Ok(v)
      case Err(e) => Err(AttributeValue(index, e))
    }

    /** getAttrBooleanValue(int): the attribute read as a boolean; a bad value is a stream error. */
    function AttrBooleanValue(index: int): (r: Result<bool, CursorError>)
      reads this, stream
      requires Valid()
      ensures AttrValueFor("getAttrBooleanValue", index).Err? ==> r == Err(AttrValueFor("getAttrBooleanValue", index).error)
      ensures AttrValueFor("getAttrBooleanValue", index).Ok? ==>
        var text := Some(AttrValueFor("getAttrBooleanValue", index).value);
        && (r.Ok? <==> ParseBoolean(text).Ok?)
        && (r.Ok? ==> r.value == ParseBoolean(text).value)
        && (r.Err? ==> r.error == AttributeValue(index, ParseBoolean(text).error))
    {
      match AttrValueFor("getAttrBooleanValue", index)
      case Err(e) => Err(e)
      case Ok(v) => Wrapped(index, ParseBoolean(Some(v)))
    }

    /** getAttrBooleanValue(int, boolean): the default wherever the value is not a boolean. */
    function AttrBooleanValueOr(index: int, def: bool): (r: Result<bool, CursorError>)
      reads this, stream
      requires Valid()
      ensures AttrValueFor("getAttrBooleanValue", index).Err? ==> r == Err(AttrValueFor("getAttrBooleanValue", index).error)
      ensures AttrValueFor("getAttrBooleanValue", index).Ok? ==>
        var text := Some(AttrValueFor("getAttrBooleanValue", index).value);
        && r.Ok?
        && (ParseBoolean(text).Ok? ==> r.value == ParseBoolean(text).value)
        && (ParseBoolean(text).Err? ==> r.value == def)
    {
      match AttrValueFor("getAttrBooleanValue", index)
      case Err(e) => Err(e)
      case Ok(v) => Ok(ParseBooleanOr(Some(v), def))
    }

    /** getAttrIntValue(int): the attribute read as a 32-bit integer; a bad value is a stream error. */
    function AttrIntValue(index: int): (r: Result<int, CursorError>)
      reads this, stream
      requires Valid()
      ensures AttrValueFor("getAttrIntValue", index).Err? ==> r == Err(AttrValueFor("getAttrIntValue", index).error)
      ensures AttrValueFor("getAttrIntValue", index).Ok? ==>
        var text := Some(AttrValueFor("getAttrIntValue", index).value);
        && (r.Ok? <==> ParseInt(text).Ok?)
        && (r.Ok? ==> r.value == ParseInt(text).value)
        && (r.Err? ==> r.error == AttributeValue(index, ParseInt(text).error))
    {
      match AttrValueFor("getAttrIntValue", index)
      case Err(e) => Err(e)
      case Ok(v) => Wrapped(index, ParseInt(Some(v)))
    }

    /** getAttrIntValue(int, int): the default for a blank value; other bad values fail unwrapped. */
    function AttrIntValueOr(index: int, def: int): (r: Result<int, CursorError>)
      reads this, stream
      requires Valid()
      ensures AttrValueFor("getAttrIntValue", index).Err? ==> r == Err(AttrValueFor("getAttrIntValue", index).error)
      ensures AttrValueFor("getAttrIntValue", index).Ok? ==>
        var text := Some(AttrValueFor("getAttrIntValue", index).value);
        && (Trim(text).None? ==> r == Ok(def))
        && (Trim(text).Some? && ParseInt(text).Ok? ==> r == Ok(ParseInt(text).value))
        && (Trim(text).Some? && ParseInt(text).Err? ==> r == Err(Data(ParseInt(text).error)))
    {
      match AttrValueFor("getAttrIntValue", index)
      case Err(e) => Err(e)
      case Ok(v) => Unwrapped(ParseIntOr(Some(v), def))
    }

    /** getAttrLongValue(int): the attribute read as a 64-bit integer; a bad value is a stream error. */
    function AttrLongValue(index: int): (r: Result<int, CursorError>)
      reads this, stream
      requires Valid()
      ensures AttrValueFor("getAttrLongValue", index).Err? ==> r == Err(AttrValueFor("getAttrLongValue", index).error)
      ensures AttrValueFor("getAttrLongValue", index).Ok? ==>
        var text := Some(AttrValueFor("getAttrLongValue", index).value);
        && (r.Ok? <==> ParseLong(text).Ok?)
        && (r.Ok? ==> r.value == ParseLong(text).value)
        && (r.Err? ==> r.error == AttributeValue(index, ParseLong(text).error))
    {
      match AttrValueFor("getAttrLongValue", index)
      case Err(e) => Err(e)
      case Ok(v) => Wrapped(index, ParseLong(Some(v)))
    }

    /** getAttrLongValue(int, long): the default for a blank value; other bad values fail unwrapped. */
    function AttrLongValueOr(index: int, def: int): (r: Result<int, CursorError>)
      reads this, stream
      requires Valid()
      ensures AttrValueFor("getAttrLongValue", index).Err? ==> r == Err(AttrValueFor("getAttrLongValue", index).error)
      ensures AttrValueFor("getAttrLongValue", index).Ok? ==>
        var text := Some(AttrValueFor("getAttrLongValue", index).value);
        && (Trim(text).None? ==> r == Ok(def))
        && (Trim(text).Some? && ParseLong(text).Ok? ==> r == Ok(ParseLong(text).value))
        && (Trim(text).Some? && ParseLong(text).Err? ==> r == Err(Data(ParseLong(text).error)))
    {
      match AttrValueFor("getAttrLongValue", index)
      case Err(e) => Err(e)
      case Ok(v) => Unwrapped(ParseLongOr(Some(v), def))
    }

    /** A typed read whose parse failure propagates as it is. */
    function Unwrapped<T>(parsed: Result<T, DataError>): (r: Result<T, CursorError>)
      ensures parsed.Ok? ==> r == Ok(parsed.value)
      ensures parsed.Err? ==> r == Err(Data(parsed.error))
    {
      match parsed
      case Ok(v) => Ok(v)
      case Err(e) => Err(Data(e))
    }

    /**
     * The by-name getAttrIntValue(String, String): a missing attribute reads
     * as null, which the parser refuses, and no failure is wrapped.
     */
    function AttrIntValueByName(uri: Option<string>, localName: string): (r: Result<int, CursorError>)
      reads this, stream
      requires Valid()
      ensures !ReaderAccessible() ==> r == Err(NotAccessibleError("getAttrIntValue"))
      ensures ReaderAccessible() ==>
        var v := FindAttr(stream.tokens[stream.pos].attrs, uri, localName);
        && (v.None? ==> r == Err(Data(MissingValue)))
        && (r.Ok? <==> ParseInt(v).Ok?)
        && (r.Ok? ==> r.value == ParseInt(v).value)
    {
      if state != Active then Err(NotAccessibleError("getAttrIntValue"))
      else Unwrapped(ParseInt(FindAttr(stream.Current().attrs, uri, localName)))
    }

    /** The by-name getAttrIntValue(String, String, int): the default for a missing or blank value. */
    function AttrIntValueByNameOr(uri: Option<string>, localName: string, def: int): (r: Result<int, CursorError>)
      reads this, stream
      requires Valid()
      ensures !ReaderAccessible() ==> r == Err(NotAccessibleError("getAttrIntValue"))
      ensures ReaderAccessible() ==>
        var v := FindAttr(stream.tokens[stream.pos].attrs, uri, localName);
        && (v.None? ==> r == Ok(def))
        && (Trim(v).None? ==> r == Ok(def))
        && (Trim(v).Some? ==> (r.Ok? <==> ParseInt(v).Ok?) && (r.Ok? ==> r.value == ParseInt(v).value))
    {
      if state != Active then Err(NotAccessibleError("getAttrIntValue"))
      else Unwrapped(ParseIntOr(FindAttr(stream.Current().attrs, uri, localName), def))
    }

    /**
     * invalidate: this cursor and every cursor below it become CLOSED with no
     * current event and no child. No token is read.
     */
    method Invalidate(ghost chain: seq<Cursor>)
      requires ChainBelow(chain)
      modifies this, chain
      ensures state == Closed && currEvent.None? && child == null
      ensures nodeCount == old(nodeCount) && elemCount == old(elemCount) && tracked == old(tracked)
      ensures Cfg() == old(Cfg())
      ensures forall c <- chain :: c.state == Closed && c.currEvent.None? && c.child == null
      decreases |chain|
    {
      state := Closed;
      currEvent := None;
      if child != null {
        assert chain[0] == child;
        assert |chain| > 1 ==> chain[0].child == chain[1];
        assert forall k :: 0 <= k < |chain| - 1 ==> chain[1..][k] == chain[k + 1];
        child.Invalidate(chain[1..]);
        assert forall c <- chain :: c == chain[0] || c in chain[1..];
        child := null;
      }
    }

    /**
     * rewindPastChild: detach and invalidate the child (and every cursor
     * below it) before reading any token, then move the stream, starting
     * from its current token, to the END_ELEMENT at the child's base depth.
     */
    method RewindPastChild(ghost chain: seq<Cursor>) returns (e: Option<ReadError>)
      requires Valid() && ChainBelow(chain) && child != null
      modifies this, stream, chain
      ensures Valid() && child == null
      ensures var d := DrainTo(stream.tokens, old(stream.pos), old(child.baseDepth));
        stream.pos == d.at && (e.None? <==> d.Drained?) && (e.Some? ==> e.value == d.err)
      ensures state == old(state) && currEvent == old(currEvent) && nodeCount == old(nodeCount)
      ensures elemCount == old(elemCount) && tracked == old(tracked) && Cfg() == old(Cfg())
      ensures forall c <- chain :: c.state == Closed && c.currEvent.None? && c.child == null
    {
      var c := child;
      child := null;
      assert |chain| > 1 ==> chain[0].child == chain[1];
      assert forall k :: 0 <= k < |chain| - 1 ==> chain[1..][k] == chain[k + 1];
      c.Invalidate(chain[1..]);
      assert forall x <- chain :: x == chain[0] || x in chain[1..];
      e := ReadToEndElement(c.baseDepth);
    }

    /**
     * The loop of rewindPastChild: from the current token on, read to the
     * END_ELEMENT of depth `endDepth`, failing at a shallower END_ELEMENT,
     * at END_DOCUMENT or at the end of the stream.
     */
    method ReadToEndElement(endDepth: int) returns (e: Option<ReadError>)
      requires stream.Valid()
      modifies stream
      ensures stream.Valid()
      ensures var d := DrainTo(stream.tokens, old(stream.pos), endDepth);
        stream.pos == d.at && (e.None? <==> d.Drained?) && (e.Some? ==> e.value == d.err)
    {
      ghost var start := stream.pos;
      while true
        invariant stream.Valid() && start <= stream.pos
        invariant DrainTo(stream.tokens, stream.pos, endDepth) == DrainTo(stream.tokens, start, endDepth)
        decreases |stream.tokens| - stream.pos
      {
        var t := stream.Current();
        if t.kind == EndElement && t.depth <= endDepth {
          if t.depth != endDepth {
            return Some(WrongEndElement(endDepth, t.depth));
          }
          return None;
        } else if t.kind == EndDocument {
          return Some(UnexpectedEndDocument);
        }
        var k := stream.Next();
        if k.Err? {
          return Some(NoMoreEvents);
        }
      }
    }

    /**
     * skipToEndElement: read past the subtree of the START_ELEMENT the stream
     * is on, to the END_ELEMENT one level below the base depth.
     */
    method SkipToEndElement() returns (e: Option<ReadError>)
      requires stream.Valid()
      modifies stream
      ensures stream.Valid()
      ensures var d := SkipSubtree(stream.tokens, old(stream.pos), baseDepth);
        stream.pos == d.at && (e.None? <==> d.Drained?) && (e.Some? ==> e.value == d.err)
    {
      var endDepth := baseDepth + 1;
      ghost var start := stream.pos;
      while true
        invariant stream.Valid() && start <= stream.pos
        invariant SkipSubtree(stream.tokens, stream.pos, baseDepth) == SkipSubtree(stream.tokens, start, baseDepth)
        decreases |stream.tokens| - stream.pos
      {
        var k := stream.Next();
        if k.Err? {
          return Some(NoMoreEvents);
        }
        var t := stream.Current();
        if t.kind == EndElement && t.depth <= endDepth {
          if t.depth != endDepth {
            return Some(WrongEndElement(endDepth, t.depth));
          }
          return None;
        } else if t.kind == EndDocument {
          return Some(UnexpectedEndDocument);
        }
      }
    }

    /**
     * One pass of the loop of getNext on an ACTIVE cursor with no child:
     * whether the loop ends here (and with what result), and the cursor's new
     * fields, are those of LoopBody.
     */
    method Pass() returns (done: bool, r: Result<Option<EventKind>, AdvanceError>)
      requires Valid() && state == Active && child == null
      modifies this, stream
      ensures Valid() && child == null && Cfg() == old(Cfg())
      ensures var round := LoopBody(old(Cfg()), DepthAtMostBase, stream.tokens, old(Prog()));
        && (done <==> round.Leave?)
        && (round.Again? ==> Prog() == round.p && state == Active)
        && (round.Leave? ==> Prog() == round.o.p && Ends(round.o, r, state))
    {
      ghost var p := Prog();
      LoopBodyEarlyExits(Cfg(), DepthAtMostBase, stream.tokens, p);
      if baseDepth == 0 {
        if !stream.HasNext() {
          currEvent := None;
          state := Closed;
          return true, Ok(None);
        }
        var k := stream.Next();
        if stream.Current().kind == EndDocument {
          currEvent := None;
          state := Closed;
          return true, Ok(None);
        }
      } else {
        var k := stream.Next();
        if k.Err? {
          return true, Err(Read(NoMoreEvents));
        }
      }
      done, r := Classify(p);
    }

    /**
     * One pass, once it has read a token that is not the root's
     * END_DOCUMENT: count it, end the scope at its END_ELEMENT, fail on an
     * unexpected END_DOCUMENT, and otherwise admit it as the current event.
     */
    method Classify(ghost p: Progress) returns (done: bool, r: Result<Option<EventKind>, AdvanceError>)
      requires Valid() && state == Active && child == null
      requires p.pos + 1 == stream.pos && Prog() == p.(pos := stream.pos)
      requires !(baseDepth == 0 && stream.tokens[stream.pos].kind == EndDocument)
      modifies this, stream
      ensures Valid() && child == null && Cfg() == old(Cfg())
      ensures var round := LoopBody(old(Cfg()), DepthAtMostBase, stream.tokens, p);
        && (done <==> round.Leave?)
        && (round.Again? ==> Prog() == round.p && state == Active)
        && (round.Leave? ==> Prog() == round.o.p && Ends(round.o, r, state))
    {
      LoopBodyEarlyExits(Cfg(), DepthAtMostBase, stream.tokens, p);
      var t := stream.Current();
      nodeCount := nodeCount + 1;
      if t.kind == EndElement && (!flattening || ClosesScope(DepthAtMostBase, t.depth, baseDepth)) {
        currEvent := None;
        state := Closed;
        return true, Ok(None);
      }
      if t.kind == StartElement {
        elemCount := elemCount + 1;
      } else if t.kind == EndDocument {
        return true, Err(Read(UnexpectedEndDocument));
      }
      currEvent := Some(t.kind);
      done, r := Admit(p);
    }

    /**
     * The rest of one pass, once the token the pass read is known not to end
     * the loop: pass over an event the filter rejects (skipping the subtree
     * of a rejected START_ELEMENT in a nested cursor), take the snapshots
     * the tracking mode asks for, and return an accepted event.
     */
    method Admit(ghost p: Progress) returns (done: bool, r: Result<Option<EventKind>, AdvanceError>)
      requires Valid() && state == Active && child == null
      requires p.pos + 1 == stream.pos
      requires var t := stream.tokens[stream.pos];
        && !(t.kind == EndElement && (!flattening || ClosesScope(DepthAtMostBase, t.depth, baseDepth)))
        && t.kind != EndDocument
        && Prog() == Progress(stream.pos, p.nodeCount + 1, if t.kind == StartElement then p.elemCount + 1 else p.elemCount,
                              Some(t.kind), p.tracked)
      modifies this, stream
      ensures Valid() && child == null && Cfg() == old(Cfg())
      ensures var round := LoopBody(old(Cfg()), DepthAtMostBase, stream.tokens, p);
        && (done <==> round.Leave?)
        && (round.Again? ==> Prog() == round.p && state == Active)
        && (round.Leave? ==> Prog() == round.o.p && Ends(round.o, r, state))
    {
      ghost var round := LoopBody(Cfg(), DepthAtMostBase, stream.tokens, p);
      var t := stream.Current();
      if filter.Some? && !filter.value(t) {
        if t.kind == StartElement {
          if tracking == AllSiblings {
            tracked := Some(Snapshot(Cfg(), t, Prog(), tracked));
          }
          if !flattening {
            var e := SkipToEndElement();
            if e.Some? {
              assert round == Leave(Fail(e.value, Prog()));
              return true, Err(Read(e.value));
            }
          }
        }
        assert round == Again(Prog());
        return false, Ok(None);
      }
      if t.kind == StartElement && tracking != NoTracking {
        var prev := if tracking == Parents then None else tracked;
        tracked := Some(Snapshot(Cfg(), t, Prog(), prev));
      }
      assert round == Leave(Yield(Prog()));
      return true, Ok(currEvent);
    }

    /**
     * The loop of getNext, run on an ACTIVE cursor with no child: its result
     * and the cursor's new fields are those of Loop.
     */
    method RunLoop() returns (r: Result<Option<EventKind>, AdvanceError>)
      requires Valid() && state == Active && child == null
      modifies this, stream
      ensures Valid() && child == null && Cfg() == old(Cfg())
      ensures var o := Loop(old(Cfg()), DepthAtMostBase, stream.tokens, old(Prog()));
        Prog() == o.p && Ends(o, r, state)
    {
      ghost var cfg := Cfg();
      ghost var tokens := stream.tokens;
      ghost var p0 := Prog();
      while true
        invariant Valid() && state == Active && child == null && Cfg() == cfg && stream.tokens == tokens
        invariant Loop(cfg, DepthAtMostBase, tokens, Prog()) == Loop(cfg, DepthAtMostBase, tokens, p0)
        decreases |tokens| - stream.pos
      {
        ghost var p := Prog();
        var done;
        done, r := Pass();
        if done {
          return;
        }
      }
    }

    /**
     * getNext: null on a closed cursor; otherwise first rewind past the open
     * child (or, for a nested cursor on a START_ELEMENT, skip its subtree),
     * then read to the next event of the cursor's scope. The result and the
     * new state are those of GetNextSpec; every cursor below is closed.
     */
    method GetNext(ghost chain: seq<Cursor>) returns (r: Result<Option<EventKind>, AdvanceError>)
      requires Valid() && ChainBelow(chain)
      modifies this, stream, chain
      ensures Valid() && child == null && Cfg() == old(Cfg())
      ensures Step(r, View()) == GetNextSpec(old(Cfg()), DepthAtMostBase, stream.tokens, old(View()))
      ensures old(child) != null ==> forall c <- chain :: c.state == Closed && c.currEvent.None? && c.child == null
    {
      ghost var cfg := Cfg();
      ghost var v := View();
      if state == Closed {
        return Ok(None);
      }
      if state == HasChild {
        if child == null {
          return Err(NoChildCursor);
        }
        var e := RewindPastChild(chain);
        if e.Some? {
          return Err(Read(e.value));
        }
        state := Active;
      } else if state == Initial {
        state := Active;
      } else if !flattening && currEvent == Some(StartElement) {
        var e := SkipToEndElement();
        if e.Some? {
          return Err(Read(e.value));
        }
      }
      ghost var start := Prog();
      r := RunLoop();
      assert start == v.progress.(pos := start.pos);
    }

    /**
     * childCursor / descendantCursor: a new nested (or flattening) cursor
     * over the children (or descendants) of the START_ELEMENT this ACTIVE
     * cursor is on; this cursor moves to HAS_CHILD. HAS_CHILD, another
     * state, and ACTIVE off a START_ELEMENT are three distinct refusals.
     */
    method OpenCursor(f: Option<Filter>, descendants: bool) returns (r: Result<Cursor, CursorError>)
      requires Valid()
      modifies this
      ensures Valid() && Prog() == old(Prog()) && Cfg() == old(Cfg())
      ensures old(state) == HasChild ==> r == Err(ChildAlreadyRequested)
      ensures old(state) == Initial || old(state) == Closed ==> r == Err(NotInActiveState(old(state)))
      ensures old(state) == Active && old(currEvent) != Some(StartElement) ==> r == Err(NotOnStartElement(old(currEvent)))
      ensures old(state) == Active && old(currEvent) == Some(StartElement) ==> r.Ok?
      ensures r.Err? ==> state == old(state) && child == old(child)
      ensures r.Ok? ==>
        && old(state) == Active && old(currEvent) == Some(StartElement)
        && fresh(r.value) && state == HasChild && child == r.value
        && r.value.Valid() && r.value.stream == stream && r.value.flattening == descendants
        && r.value.Cfg() == ChildConfig(Cfg(), tracked, descendants, f, stream.tokens[stream.pos])
        && r.value.View() == CursorView(Initial, Progress(stream.pos, 0, 0, None, None), None)
    {
      if state != Active {
        if state == HasChild {
          return Err(ChildAlreadyRequested);
        }
        return Err(NotInActiveState(state));
      }
      if currEvent != Some(StartElement) {
        return Err(NotOnStartElement(currEvent));
      }
      var c := new Cursor(this, stream, f, descendants);
      child := c;
      state := HasChild;
      r := Ok(c);
    }

    /**
     * collectDescendantText: on an ACTIVE cursor on a START_ELEMENT, open a
     * flattening cursor that shows only text events and concatenate the text
     * of every event it returns. The result is CollectText's; on a
     * well-formed stream it is the text between the START_ELEMENT and its
     * matching END_ELEMENT, and the stream is left on that END_ELEMENT.
     */
    method CollectDescendantText(includeIgnorable: bool) returns (r: Result<string, CursorError>)
      requires Valid()
      modifies this, stream
      ensures Valid() && Cfg() == old(Cfg())
      ensures old(state) != Active ==> r == Err(NotAccessible("getText", old(child) != null)) && stream.pos == old(stream.pos)
      ensures old(state) == Active && old(currEvent) != Some(StartElement) ==>
        r == Err(NotOnStartElement(old(currEvent))) && stream.pos == old(stream.pos)
      ensures old(state) == Active && old(currEvent) == Some(StartElement) ==>
        var c := CollectText(ChildConfig(old(Cfg()), old(tracked), true, Some(TextOnly(includeIgnorable)), stream.tokens[old(stream.pos)]),
                             stream.tokens, Progress(old(stream.pos), 0, 0, None, None), "");
        && state == HasChild && child != null && child.baseDepth == stream.tokens[old(stream.pos)].depth
        && stream.pos == c.p.pos
        && (c.text.Ok? ==> r == Ok(c.text.value))
        && (c.text.Err? ==> r == Err(Advance(Read(c.text.error))))
      ensures old(state) == Active && old(currEvent) == Some(StartElement)
              && WellFormed(stream.tokens) && Synced(old(Cfg()), stream.tokens, old(View())) ==>
        var d := stream.tokens[old(stream.pos)].depth;
        && DrainTo(stream.tokens, old(stream.pos) + 1, d).Drained?
        && stream.pos == DrainTo(stream.tokens, old(stream.pos) + 1, d).at
        && r == Ok(TextOf(stream.tokens[old(stream.pos) + 1..stream.pos], includeIgnorable))
    {
      if state != Active {
        return Err(NotAccessibleError("getText"));
      }
      if currEvent != Some(StartElement) {
        return Err(NotOnStartElement(currEvent));
      }
      ghost var cfg0, v0 := Cfg(), View();
      var made := OpenCursor(Some(TextOnly(includeIgnorable)), true);
      var c := made.value;
      ghost var cfg := c.Cfg();
      ghost var tokens := stream.tokens;
      ghost var p0 := c.Prog();
      var acc := "";
      while true
        invariant c.Valid() && c.stream == stream && stream.tokens == tokens && c.child == null && c.Cfg() == cfg
        invariant Valid() && state == HasChild && child == c && Cfg() == old(Cfg())
        invariant c.state == Initial || c.state == Active
        invariant CollectText(cfg, tokens, c.Prog(), acc) == CollectText(cfg, tokens, p0, "")
        decreases |tokens| - stream.pos
      {
        ghost var p := c.Prog();
        var e := c.GetNext([]);
        match e
        case Err(err) =>
          assert CollectText(cfg, tokens, p, acc) == Collected(Err(err.err), c.Prog());
          CollectDescendantOnWellFormed(cfg0, tokens, v0, includeIgnorable);
          return Err(Advance(e.error));
        case Ok(k) =>
          if k.None? {
            assert CollectText(cfg, tokens, p, acc) == Collected(Ok(acc), c.Prog());
            CollectDescendantOnWellFormed(cfg0, tokens, v0, includeIgnorable);
            return Ok(acc);
          }
          acc := acc + stream.Current().text;
      }
    }
  }
}
