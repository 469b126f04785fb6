/**
 * Element tracking of the input cursors: the tracking modes, the immutable
 * element snapshots (each linked to the snapshot of its parent element and,
 * optionally, of its previous sibling) and the path description built from
 * a chain of snapshots.
 */
module ElementTracking {
  import opened Wrappers
  import opened XmlTokens
  import opened JavaStrings

  /** How much element information a cursor keeps while it advances. */
  datatype Tracking = NoTracking | Parents | VisibleSiblings | AllSiblings

  /**
   * A snapshot of one START_ELEMENT: the snapshot of the enclosing element
   * tracked by the parent cursor, the snapshot of the previous sibling (when
   * siblings are tracked), the name, and where the element was met.
   */
  datatype ElementInfo = ElementInfo(
    parent: Option<ElementInfo>, prevSibling: Option<ElementInfo>,
    prefix: Option<string>, nsUri: Option<string>, localName: Option<string>,
    nodeIndex: int, elementIndex: int, depth: int)

  /**
   * A user-supplied snapshot factory. It sees what the cursor exposes at the
   * time of the call: the parent and previous-sibling snapshots, the current
   * token, the node and element counts, and the parent count.
   */
  type InfoFactory = (Option<ElementInfo>, Option<ElementInfo>, Token, nat, nat, int) -> ElementInfo

  /**
   * The snapshot taken when a cursor moves over a START_ELEMENT: the factory's
   * when one is set; otherwise a default snapshot whose node and element
   * indices are zero-based positions among what the cursor has read.
   */
  function ConstructElementInfo(
    factory: Option<InfoFactory>, parent: Option<ElementInfo>, prevSibling: Option<ElementInfo>,
    t: Token, nodeCount: nat, elemCount: nat, parentCount: int): (e: ElementInfo)
    ensures factory.Some? ==> e == factory.value(parent, prevSibling, t, nodeCount, elemCount, parentCount)
    ensures factory.None? ==>
      && e.parent == parent && e.prevSibling == prevSibling
      && e.prefix == t.prefix && e.nsUri == t.nsUri && e.localName == t.name
      && e.nodeIndex + 1 == nodeCount && e.elementIndex + 1 == elemCount && e.depth == parentCount
  {
    if factory.Some? then factory.value(parent, prevSibling, t, nodeCount, elemCount, parentCount)
    else ElementInfo(parent, prevSibling, t.prefix, t.nsUri, t.name, nodeCount - 1, elemCount - 1, parentCount)
  }

  /** One step of a path description: "/", the prefix and ':' when there is a prefix, the local name, "[e<index>]". */
  function Segment(info: ElementInfo): (s: string)
    ensures |s| > 0 && s[0] == '/'
  {
    var qualifier := if info.prefix.Some? && |info.prefix.value| > 0 then info.prefix.value + ":" else "";
    "/" + (qualifier + (JavaText(info.localName) + ("[e" + IntToString(info.elementIndex) + "]")))
  }

  /** The recursive form of appendPathDesc: the path of the parent, then this element. */
  function AppendPath(info: Option<ElementInfo>): (s: string)
    ensures info.None? <==> s == ""
    ensures info.Some? ==> s[0] == '/'
    decreases info
  {
    if info.None? then "" else AppendPath(info.value.parent) + Segment(info.value)
  }

  /** The snapshots from the outermost ancestor down to `info`. */
  function Ancestry(info: Option<ElementInfo>): (a: seq<ElementInfo>)
    ensures info.None? <==> |a| == 0
    ensures info.Some? ==> a[|a| - 1] == info.value && a[0].parent.None?
    ensures forall k :: 0 < k < |a| ==> a[k].parent == Some(a[k - 1])
    decreases info
  {
    if info.None? then [] else Ancestry(info.value.parent) + [info.value]
  }

  /** The segments of a sequence of snapshots, joined left to right. */
  function JoinSegments(a: seq<ElementInfo>): string
  {
    if |a| == 0 then "" else Segment(a[0]) + JoinSegments(a[1..])
  }

  lemma {:induction false} JoinSegmentsAppend(a: seq<ElementInfo>, x: ElementInfo)
    ensures JoinSegments(a + [x]) == JoinSegments(a) + Segment(x)
  {
    if |a| == 0 {
      assert a + [x] == [x];
      assert JoinSegments([x]) == Segment(x) + JoinSegments([]);
    } else {
      assert (a + [x])[1..] == a[1..] + [x];
      JoinSegmentsAppend(a[1..], x);
    }
  }

  /**
   * The recursive path is the segments of all ancestors, outermost first,
   * ending with the element itself.
   */
  lemma {:induction false} AppendPathIsAncestry(info: Option<ElementInfo>)
    ensures AppendPath(info) == JoinSegments(Ancestry(info))
    decreases info
  {
    if info.Some? {
      AppendPathIsAncestry(info.value.parent);
      JoinSegmentsAppend(Ancestry(info.value.parent), info.value);
    }
  }

  /** The step getPathDesc writes for a position that is not a tracked start element. */
  function WildcardStep(nodeCount: nat): string
  {
    "/*[n" + IntToString(nodeCount) + "]"
  }

  /**
   * getPathDesc: "." when nothing is tracked; otherwise the path of the
   * parent's tracked element, then either the current tracked element (when
   * the cursor is on a START_ELEMENT it has a snapshot of) or the node count
   * written as a wildcard step with an "n" index.
   */
  function PathDesc(parentTracked: Option<ElementInfo>, tracking: Tracking, tracked: Option<ElementInfo>,
                    currEvent: Option<EventKind>, nodeCount: nat): string
  {
    if parentTracked.None? && tracking == NoTracking then "."
    else
      var last := if tracked.Some? && currEvent == Some(StartElement) then Segment(tracked.value)
                  else WildcardStep(nodeCount);
      AppendPath(parentTracked) + last
  }

  /** The description is "." exactly when there is no parent snapshot and tracking is off. */
  lemma PathDescDot(parentTracked: Option<ElementInfo>, tracking: Tracking, tracked: Option<ElementInfo>,
                    currEvent: Option<EventKind>, nodeCount: nat)
    ensures PathDesc(parentTracked, tracking, tracked, currEvent, nodeCount) == "."
        <==> parentTracked.None? && tracking == NoTracking
  {
    var d := PathDesc(parentTracked, tracking, tracked, currEvent, nodeCount);
    if !(parentTracked.None? && tracking == NoTracking) {
      assert d[0] == '/';
    }
  }

  /**
   * Otherwise the description lists the ancestors outermost first and then
   * the current position.
   */
  lemma PathDescAncestors(parentTracked: Option<ElementInfo>, tracking: Tracking, tracked: Option<ElementInfo>,
                          currEvent: Option<EventKind>, nodeCount: nat)
    requires parentTracked.Some? || tracking != NoTracking
    ensures tracked.Some? && currEvent == Some(StartElement) ==>
      PathDesc(parentTracked, tracking, tracked, currEvent, nodeCount)
        == JoinSegments(Ancestry(parentTracked) + [tracked.value])
    ensures !(tracked.Some? && currEvent == Some(StartElement)) ==>
      PathDesc(parentTracked, tracking, tracked, currEvent, nodeCount)
        == JoinSegments(Ancestry(parentTracked)) + WildcardStep(nodeCount)
  {
    AppendPathIsAncestry(parentTracked);
    if tracked.Some? && currEvent == Some(StartElement) {
      JoinSegmentsAppend(Ancestry(parentTracked), tracked.value);
    }
  }
}
