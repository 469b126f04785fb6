/**
 * The output side: containers (the root fragment, elements and buffered
 * fragments) that write what is added to them straight to the stream
 * writer when nothing before it in document order is still held back, and
 * otherwise keep it as pending children to be written later, front to back.
 *
 * All containers of one output context live in an arena owned by the
 * context and are named by their index (a node id); the intrusive list of
 * pending children (first, last, next links) is a sequence per container.
 * The stream writer is the trace of events written so far. A container
 * only ever holds containers made after it, so every pending child has a
 * larger id than its container and every parent a smaller one.
 */
module Output {
  import opened Wrappers
  import opened JavaStrings
  import opened DataUtil

  type NodeId = nat

  /**
   * A namespace as an output context hands it out; `owner` is the context
   * that made it, None for the shared empty namespace. How a namespace is
   * bound to a prefix is not part of this model.
   */
  datatype Namespace = Namespace(uri: string, owner: Option<nat>)

  const EmptyNamespace: Namespace := Namespace("", None)

  /** Whether a namespace instance may be used with context `contextId`. */
  predicate ValidIn(ns: Namespace, contextId: nat)
  {
    ns.owner.None? || ns.owner == Some(contextId)
  }

  /**
   * The namespace addElement and addAttribute use for argument `ns`: the
   * empty namespace for null, the argument itself when it belongs to this
   * context, and this context's instance for the same URI otherwise.
   */
  function ResolveNamespace(ns: Option<Namespace>, contextId: nat): (r: Namespace)
    ensures ValidIn(r, contextId)
    ensures r.uri == if ns.None? then "" else ns.value.uri
    ensures ns.None? ==> r == EmptyNamespace
    ensures ns.Some? && ValidIn(ns.value, contextId) ==> r == ns.value
  {
    if ns.None? then EmptyNamespace
    else if ValidIn(ns.value, contextId) then ns.value
    else Namespace(ns.value.uri, Some(contextId))
  }

  /** One call on the stream writer. */
  datatype OutEvent =
    | StartTag(ns: Namespace, localName: string)
    | EndTag(parentNsCount: nat, parentDefaultNs: Option<Namespace>)
    | Attr(attrNs: Namespace, attrName: string, value: string)
    | Characters(text: string)
    | CData(text: string)
    | Comment(text: string)
    | EntityRef(name: string)
    | ProcessingInstruction(target: string, data: string)
    | Flush

  /**
   * A pending child: a simple node (text, comment, buffered attribute and
   * the like), which writes one event, or a container.
   */
  datatype Item = Simple(event: OutEvent) | Child(id: NodeId)

  /** The output state of an element; it only moves forward, in this order. */
  datatype ElementState = OutputNone | OutputAttrs | OutputChildren | OutputClosed

  function ElementRank(s: ElementState): nat
  {
    match s
    case OutputNone => 0
    case OutputAttrs => 1
    case OutputChildren => 2
    case OutputClosed => 3
  }

  /**
   * The state of a buffered fragment: held back by the caller, released by
   * the caller but not yet reached by its container's output, reached
   * (what is added now may be written at once), and fully written.
   */
  datatype FragmentState = Buffered | Released | Open | Done

  function FragmentRank(s: FragmentState): nat
  {
    match s
    case Buffered => 0
    case Released => 1
    case Open => 2
    case Done => 3
  }

  datatype Container =
    | RootFragment(active: bool)
    | Element(ns: Namespace, localName: string, state: ElementState,
              parentNsCount: nat, parentDefaultNs: Option<Namespace>)
    | BufferedFragment(fragment: FragmentState)

  datatype Node = Node(container: Container, parent: Option<NodeId>, pending: seq<Item>)

  /** Why an output operation was refused. */
  datatype OutputError =
    | Relinking                           // a container's parent can be set once only
    | ContainerClosed                     // the element or fragment has been written completely
    | AttributesClosed(elementState: string) // "CHILDREN-ADDED" or "ELEMENT-CLOSED"
    | RootClosed                          // the root fragment is no longer active

  /** Output of the container has begun. */
  predicate Started(c: Container)
  {
    (c.Element? && c.state != OutputNone) || (c.BufferedFragment? && (c.fragment == Open || c.fragment == Done))
  }

  /** The container has been written completely. */
  predicate Finished(c: Container)
  {
    (c.Element? && c.state == OutputClosed) || (c.BufferedFragment? && c.fragment == Done)
  }

  /**
   * The states in which a container may hold pending children: an active
   * root, an element that is blocked or past its attributes, and a fragment
   * that is not done.
   */
  predicate Accepts(c: Container)
  {
    match c
    case RootFragment(active) => active
    case Element(_, _, s, _, _) => s == OutputNone || s == OutputChildren
    case BufferedFragment(f) => f != Done
  }

  /**
   * The shape every node keeps: its parent is older, a started container
   * has a parent, only an accepting container has pending children, and
   * every pending container is younger, linked to a parent and no root.
   */
  ghost predicate NodeOk(nodes: seq<Node>, i: nat)
    requires i < |nodes|
  {
    var nd := nodes[i];
    && (nd.parent.Some? ==> nd.parent.value < i)
    && (Started(nd.container) ==> nd.parent.Some?)
    && (nd.pending != [] ==> Accepts(nd.container))
    && (forall k :: 0 <= k < |nd.pending| && nd.pending[k].Child? ==>
          i < nd.pending[k].id < |nodes|
          && nodes[nd.pending[k].id].parent.Some?
          && !nodes[nd.pending[k].id].container.RootFragment?)
  }

  /** What a container keeps across any operation: its kind, name and recorded start values, and a forward state. */
  predicate ContainerEvolves(a: Container, b: Container)
  {
    match a
    case RootFragment(act) => b.RootFragment? && (b.active ==> act)
    case Element(ns, ln, s, cnt, def) =>
      && b.Element? && b.ns == ns && b.localName == ln
      && ElementRank(s) <= ElementRank(b.state)
      && (s != OutputNone ==> b.parentNsCount == cnt && b.parentDefaultNs == def)
    case BufferedFragment(f) => b.BufferedFragment? && FragmentRank(f) <= FragmentRank(b.fragment)
  }

  /** Arena `b` is a later state of arena `a`: containers only move forward and a parent, once set, stays. */
  ghost predicate Evolves(a: seq<Node>, b: seq<Node>)
  {
    && |a| <= |b|
    && forall i :: 0 <= i < |a| ==>
         ContainerEvolves(a[i].container, b[i].container) && (a[i].parent.Some? ==> b[i].parent == a[i].parent)
  }

  lemma EvolvesTransitive(a: seq<Node>, b: seq<Node>, c: seq<Node>)
    requires Evolves(a, b) && Evolves(b, c)
    ensures Evolves(a, c)
  {
    forall i | 0 <= i < |a|
      ensures ContainerEvolves(a[i].container, c[i].container)
    {
      assert ContainerEvolves(a[i].container, b[i].container);
      assert ContainerEvolves(b[i].container, c[i].container);
    }
  }

  /** Nodes below `n` are the same in both arenas, which have the same size. */
  ghost predicate SameBelow(a: seq<Node>, b: seq<Node>, n: nat)
  {
    |a| == |b| && forall j :: 0 <= j < n && j < |a| ==> a[j] == b[j]
  }

  predicate IsSuffix<T(==)>(s: seq<T>, t: seq<T>)
  {
    |s| <= |t| && s == t[|t| - |s|..]
  }

  function Last<T>(s: seq<T>): (x: T)
    requires s != []
  {
    s[|s| - 1]
  }

  /**
   * The state doWriteStartElement leaves behind. As corrected here, an
   * element whose pending children are written right after its start tag is
   * past its attributes.
   */
  function StateAfterStart(pending: seq<Item>): (s: ElementState)
    ensures s == OutputAttrs <==> pending == []
    ensures s == OutputAttrs || s == OutputChildren
  {
    if pending == [] then OutputAttrs else OutputChildren
  }

  /**
   * The state doWriteStartElement leaves behind as written: OUTPUT_ATTRS
   * always. It takes the pending children only to have the shape of
   * StateAfterStart, which it stands in for.
   */
  function StateAfterStartAsWritten(pending: seq<Item>): (s: ElementState)
  {
    OutputAttrs
  }

  /**
   * As written, an element that was blocked with a held-back fragment
   * queued and then gets its start tag is left in OUTPUT_ATTRS with that
   * fragment heading its queue: the arena no longer has the shape every
   * operation relies on (an element taking attributes has no pending
   * children). Releasing the fragment then brings the news to that element
   * itself, in OUTPUT_ATTRS: the state in which childReleased reports an
   * internal error.
   */
  lemma StartAsWrittenKeepsAttributesOpen()
    ensures var before := [Node(RootFragment(true), None, [Child(1)]),
                           Node(Element(EmptyNamespace, "a", OutputNone, 0, None), Some(0), [Child(2)]),
                           Node(BufferedFragment(Buffered), Some(1), [])];
            var e := before[1].container;
            var after := before[1 := before[1].(container := e.(state := StateAfterStartAsWritten(before[1].pending)))];
            NodeOk(before, 1) && !NodeOk(after, 1) &&
            after[1].container.state == OutputAttrs && HeadsQueue(after[1], 2) && after[2].parent == Some(1) &&
            ReleaseStop(after, 1, 2) == (1, 2)
  {
  }

  /**
   * The states in which what is added to a container may be written at
   * once when nothing is pending: an active root, an element past its
   * attributes, a fragment its container has reached.
   */
  predicate Writable(c: Container)
  {
    match c
    case RootFragment(active) => active
    case Element(_, _, s, _, _) => s == OutputChildren
    case BufferedFragment(f) => f == Open
  }

  /** The states in which a container keeps what is added to it: a blocked element, a fragment not yet reached. */
  predicate Held(c: Container)
  {
    (c.Element? && c.state == OutputNone) || (c.BufferedFragment? && (c.fragment == Buffered || c.fragment == Released))
  }

  /** `child` is the first pending item of node `nd`. */
  predicate HeadsQueue(nd: Node, child: NodeId)
  {
    nd.pending != [] && nd.pending[0] == Child(child)
  }

  /**
   * Where the news that `child` was released stops, with the child that
   * brings it there: an element past its attributes or a fragment its
   * container has reached, whose queue the child heads, passes the news to
   * its own container; any other node takes it.
   */
  ghost function ReleaseStop(nodes: seq<Node>, n: NodeId, child: NodeId): (r: (NodeId, NodeId))
    requires n < |nodes|
    ensures r.0 <= n
    decreases n
  {
    var nd := nodes[n];
    var passes := (nd.container.Element? && nd.container.state == OutputChildren)
                  || (nd.container.BufferedFragment? && nd.container.fragment == Open);
    if HeadsQueue(nd, child) && passes && nd.parent.Some? && nd.parent.value < n
    then ReleaseStop(nodes, nd.parent.value, n)
    else (n, child)
  }

  predicate AllSimple(items: seq<Item>)
  {
    forall k :: 0 <= k < |items| ==> items[k].Simple?
  }

  /** The events of the simple nodes among `items`, in order. */
  function SimpleEvents(items: seq<Item>): seq<OutEvent>
  {
    if items == [] then []
    else SimpleEvents(items[..|items| - 1]) + (if Last(items).Simple? then [Last(items).event] else [])
  }

  /** Writing the next simple node of a list extends the events written so far by its event. */
  lemma SimpleEventsStep(items: seq<Item>, k: nat)
    requires k < |items| && AllSimple(items)
    ensures SimpleEvents(items[..k + 1]) == SimpleEvents(items[..k]) + [items[k].event]
  {
    assert items[..k + 1][..k] == items[..k];
  }

  /** Every node of the arena has the shape NodeOk describes. */
  ghost predicate Shaped(nodes: seq<Node>)
  {
    forall i :: 0 <= i < |nodes| ==> NodeOk(nodes, i)
  }

  /**
   * Replacing one node keeps the arena shaped when the new node is shaped
   * itself, is still linked if it was, and is a root exactly when it was.
   */
  lemma ReplaceKeepsShape(nodes: seq<Node>, n: nat, nd: Node)
    requires Shaped(nodes) && n < |nodes|
    requires nodes[n].parent.Some? ==> nd.parent.Some?
    requires nd.container.RootFragment? == nodes[n].container.RootFragment?
    requires NodeOk(nodes[n := nd], n)
    ensures Shaped(nodes[n := nd])
  {
    var after := nodes[n := nd];
    forall i | 0 <= i < |after| && i != n
      ensures NodeOk(after, i)
    {
      assert NodeOk(nodes, i);
      assert after[i] == nodes[i];
      forall k | 0 <= k < |after[i].pending| && after[i].pending[k].Child?
        ensures var c := after[i].pending[k].id;
                i < c < |after| && after[c].parent.Some? && !after[c].container.RootFragment?
      {
      }
    }
  }

  /** Adding a shaped node at the end keeps the arena shaped. */
  lemma AppendKeepsShape(nodes: seq<Node>, nd: Node)
    requires Shaped(nodes) && NodeOk(nodes + [nd], |nodes|)
    ensures Shaped(nodes + [nd])
  {
    var after := nodes + [nd];
    forall i | 0 <= i < |nodes|
      ensures NodeOk(after, i)
    {
      assert NodeOk(nodes, i);
      assert after[i] == nodes[i];
      forall k | 0 <= k < |after[i].pending| && after[i].pending[k].Child?
        ensures var c := after[i].pending[k].id;
                i < c < |after| && after[c].parent.Some? && !after[c].container.RootFragment?
      {
        assert after[after[i].pending[k].id] == nodes[after[i].pending[k].id];
      }
    }
  }

  /** Moving one container forward is an evolution of the arena. */
  lemma ReplaceEvolves(nodes: seq<Node>, n: nat, nd: Node)
    requires n < |nodes|
    requires ContainerEvolves(nodes[n].container, nd.container)
    requires nodes[n].parent.Some? ==> nd.parent == nodes[n].parent
    ensures Evolves(nodes, nodes[n := nd])
  {
  }

  /**
   * An output context: the arena of its containers and the stream writer it
   * writes to. Namespace binding is not modelled, so the namespace count and
   * the default namespace the writer reports stay what they were.
   */
  class OutputContext {
    const contextId: nat
    const nsCount: nat
    const defaultNs: Option<Namespace>
    var nodes: seq<Node>
    var trace: seq<OutEvent>

    ghost predicate Valid()
      reads this
    {
      Shaped(nodes)
    }

    constructor (contextId: nat, nsCount: nat, defaultNs: Option<Namespace>)
      ensures Valid() && nodes == [] && trace == []
      ensures this.contextId == contextId && this.nsCount == nsCount && this.defaultNs == defaultNs
    {
      this.contextId := contextId;
      this.nsCount := nsCount;
      this.defaultNs := defaultNs;
      nodes := [];
      trace := [];
    }

    /** A root-level container: active, without parent or children. */
    method NewRootFragment() returns (root: NodeId)
      requires Valid()
      modifies this
      ensures Valid() && trace == old(trace)
      ensures root == |old(nodes)| && nodes == old(nodes) + [Node(RootFragment(true), None, [])]
    {
      root := |nodes|;
      AppendKeepsShape(nodes, Node(RootFragment(true), None, []));
      nodes := nodes + [Node(RootFragment(true), None, [])];
    }

    /** createBufferedFragment: a new fragment, held back, not yet linked. */
    method CreateBufferedFragment() returns (f: NodeId)
      requires Valid()
      modifies this
      ensures Valid() && trace == old(trace)
      ensures f == |old(nodes)| && nodes == old(nodes) + [Node(BufferedFragment(Buffered), None, [])]
    {
      f := |nodes|;
      AppendKeepsShape(nodes, Node(BufferedFragment(Buffered), None, []));
      nodes := nodes + [Node(BufferedFragment(Buffered), None, [])];
    }

    /** The SMOutputElement constructor: a blocked element with a name and a namespace, not yet linked. */
    method NewElement(ns: Namespace, localName: string) returns (e: NodeId)
      requires Valid()
      modifies this
      ensures Valid() && trace == old(trace)
      ensures e == |old(nodes)| && nodes == old(nodes) + [Node(Element(ns, localName, OutputNone, 0, None), None, [])]
    {
      e := |nodes|;
      AppendKeepsShape(nodes, Node(Element(ns, localName, OutputNone, 0, None), None, []));
      nodes := nodes + [Node(Element(ns, localName, OutputNone, 0, None), None, [])];
    }

    /** Moves container `n` forward to `c`, keeping its parent and children. */
    method SetContainer(n: NodeId, c: Container)
      requires Valid() && n < |nodes|
      requires ContainerEvolves(nodes[n].container, c)
      requires Started(c) ==> nodes[n].parent.Some?
      requires nodes[n].pending != [] ==> Accepts(c)
      modifies this
      ensures Valid() && trace == old(trace) && Evolves(old(nodes), nodes)
      ensures nodes == old(nodes)[n := old(nodes[n]).(container := c)]
    {
      var nd := nodes[n].(container := c);
      assert NodeOk(nodes, n);
      assert NodeOk(nodes[n := nd], n);
      ReplaceKeepsShape(nodes, n, nd);
      ReplaceEvolves(nodes, n, nd);
      nodes := nodes[n := nd];
    }

    /** doWriteStartElement: records the writer's namespace state and writes the start tag. */
    method WriteStartElement(e: NodeId)
      requires Valid() && e < |nodes| && nodes[e].parent.Some?
      requires nodes[e].container.Element? && nodes[e].container.state == OutputNone
      modifies this
      ensures Valid() && Evolves(old(nodes), nodes)
      ensures var c := old(nodes[e].container);
              nodes == old(nodes)[e := old(nodes[e]).(container := c.(state := StateAfterStart(old(nodes[e].pending)),
                                                                     parentNsCount := nsCount, parentDefaultNs := defaultNs))]
      ensures trace == old(trace) + [StartTag(old(nodes[e].container).ns, old(nodes[e].container).localName)]
    {
      var c := nodes[e].container;
      SetContainer(e, c.(state := StateAfterStart(nodes[e].pending), parentNsCount := nsCount, parentDefaultNs := defaultNs));
      trace := trace + [StartTag(c.ns, c.localName)];
    }

    /** doWriteEndElement: closes the element with the values recorded at its start tag. */
    method WriteEndElement(e: NodeId)
      requires Valid() && e < |nodes| && nodes[e].pending == []
      requires nodes[e].container.Element?
      requires nodes[e].container.state == OutputAttrs || nodes[e].container.state == OutputChildren
      modifies this
      ensures Valid() && Evolves(old(nodes), nodes)
      ensures nodes == old(nodes)[e := old(nodes[e]).(container := old(nodes[e].container).(state := OutputClosed))]
      ensures trace == old(trace) + [EndTag(old(nodes[e].container).parentNsCount, old(nodes[e].container).parentDefaultNs)]
    {
      var c := nodes[e].container;
      assert NodeOk(nodes, e);
      SetContainer(e, c.(state := OutputClosed));
      trace := trace + [EndTag(c.parentNsCount, c.parentDefaultNs)];
    }

    /** _linkNewChild: the item becomes the last pending child of `n`. */
    method LinkNewChild(n: NodeId, item: Item)
      requires Valid() && n < |nodes| && Accepts(nodes[n].container)
      requires item.Child? ==> n < item.id < |nodes| && nodes[item.id].parent.Some?
                               && !nodes[item.id].container.RootFragment?
      modifies this
      ensures Valid() && trace == old(trace) && Evolves(old(nodes), nodes)
      ensures nodes == old(nodes)[n := old(nodes[n]).(pending := old(nodes[n].pending) + [item])]
    {
      var nd := nodes[n].(pending := nodes[n].pending + [item]);
      assert NodeOk(nodes, n);
      assert NodeOk(nodes[n := nd], n);
      ReplaceKeepsShape(nodes, n, nd);
      ReplaceEvolves(nodes, n, nd);
      nodes := nodes[n := nd];
    }

    /** Drops the first pending child of `n` once it has been written. */
    method PopFirst(n: NodeId)
      requires Valid() && n < |nodes| && nodes[n].pending != []
      modifies this
      ensures Valid() && trace == old(trace) && Evolves(old(nodes), nodes)
      ensures nodes == old(nodes)[n := old(nodes[n]).(pending := old(nodes[n].pending)[1..])]
    {
      var nd := nodes[n].(pending := nodes[n].pending[1..]);
      assert NodeOk(nodes, n);
      assert NodeOk(nodes[n := nd], n);
      ReplaceKeepsShape(nodes, n, nd);
      ReplaceEvolves(nodes, n, nd);
      nodes := nodes[n := nd];
    }

    /**
     * linkParent: sets the parent of element or fragment `c` once; an
     * element whose container is not blocked writes its start tag at once.
     */
    method LinkParent(c: NodeId, parent: NodeId, blocked: bool) returns (err: Option<OutputError>)
      requires Valid() && parent < c < |nodes|
      requires !nodes[c].container.RootFragment?
      modifies this
      ensures Valid() && |nodes| == |old(nodes)| && Evolves(old(nodes), nodes)
      ensures old(nodes[c].parent).Some? ==> err == Some(Relinking) && nodes == old(nodes) && trace == old(trace)
      ensures old(nodes[c].parent).None? ==> err.None? && nodes[c].parent == Some(parent)
      ensures old(nodes[c].parent).None? && (blocked || old(nodes[c].container).BufferedFragment?) ==>
                nodes == old(nodes)[c := old(nodes[c]).(parent := Some(parent))] && trace == old(trace)
      ensures old(nodes[c].parent).None? && !blocked && old(nodes[c].container).Element? ==>
                var e := old(nodes[c].container);
                && nodes == old(nodes)[c := old(nodes[c]).(parent := Some(parent),
                             container := e.(state := StateAfterStart(old(nodes[c].pending)),
                                             parentNsCount := nsCount, parentDefaultNs := defaultNs))]
                && trace == old(trace) + [StartTag(e.ns, e.localName)]
    {
      if nodes[c].parent.Some? {
        return Some(Relinking);
      }
      var nd := nodes[c].(parent := Some(parent));
      assert NodeOk(nodes, c);
      assert NodeOk(nodes[c := nd], c);
      ReplaceKeepsShape(nodes, c, nd);
      ReplaceEvolves(nodes, c, nd);
      nodes := nodes[c := nd];
      if !blocked && nodes[c].container.Element? {
        assert NodeOk(old(nodes), c);
        ghost var linked := nodes;
        WriteStartElement(c);
        EvolvesTransitive(old(nodes), linked, nodes);
      }
      err := None;
    }

    /**
     * doOutput on the first pending child of `n`: a simple node writes its
     * event and is always done; a container does its own doOutput.
     */
    method OutputItem(n: NodeId, item: Item, canClose: bool) returns (r: Result<bool, OutputError>)
      requires Valid() && n < |nodes| && nodes[n].pending != [] && item == nodes[n].pending[0]
      modifies this
      decreases |nodes| - n, 0
      ensures Valid() && SameBelow(old(nodes), nodes, n + 1) && Evolves(old(nodes), nodes) && old(trace) <= trace
      ensures item.Simple? ==> r == Ok(true) && nodes == old(nodes) && trace == old(trace) + [item.event]
      ensures item.Child? && r == Ok(true) ==> item.id < |nodes| && Finished(nodes[item.id].container)
      ensures item.Child? && !canClose ==> r != Ok(true)
    {
      match item
      case Simple(e) =>
        trace := trace + [e];
        r := Ok(true);
      case Child(c) =>
        assert NodeOk(nodes, n);
        r := DoOutput(c, canClose);
    }

    /**
     * One step of the flush loops: the first pending child of `n` is
     * written and, once it is done, dropped from the pending list.
     */
    method FlushFirst(n: NodeId, canClose: bool) returns (r: Result<bool, OutputError>)
      requires Valid() && n < |nodes| && nodes[n].pending != []
      modifies this
      decreases |nodes| - n, 1
      ensures Valid() && SameBelow(old(nodes), nodes, n) && Evolves(old(nodes), nodes) && old(trace) <= trace
      ensures nodes[n].container == old(nodes[n].container) && nodes[n].parent == old(nodes[n].parent)
      ensures r == Ok(true) ==> nodes[n].pending == old(nodes[n].pending)[1..]
      ensures r != Ok(true) ==> nodes[n].pending == old(nodes[n].pending)
      ensures old(nodes[n].pending[0]).Simple? ==> r == Ok(true) && trace == old(trace) + [old(nodes[n].pending[0]).event]
      ensures old(nodes[n].pending[0]).Child? && !canClose ==> r != Ok(true)
    {
      r := OutputItem(n, nodes[n].pending[0], canClose);
      if r == Ok(true) {
        ghost var written := nodes;
        PopFirst(n);
        EvolvesTransitive(old(nodes), written, nodes);
      }
    }

    /**
     * closeAndOutputChildren: writes pending children front to back, each
     * allowed to close, and stops at the first that cannot finish. The
     * result is whether no pending child is left.
     */
    method CloseAndOutputChildren(n: NodeId) returns (r: Result<bool, OutputError>)
      requires Valid() && n < |nodes|
      modifies this
      decreases |nodes| - n, 2
      ensures Valid() && SameBelow(old(nodes), nodes, n) && Evolves(old(nodes), nodes) && old(trace) <= trace
      ensures nodes[n].container == old(nodes[n].container) && nodes[n].parent == old(nodes[n].parent)
      ensures IsSuffix(nodes[n].pending, old(nodes[n].pending))
      ensures r.Ok? ==> (r.value <==> nodes[n].pending == [])
      ensures r == Ok(false) ==> nodes[n].pending[0].Child?
      ensures AllSimple(old(nodes[n].pending)) ==> r == Ok(true) && trace == old(trace) + SimpleEvents(old(nodes[n].pending))
    {
      ghost var items := nodes[n].pending;
      ghost var simple := AllSimple(items);
      while nodes[n].pending != []
        invariant Valid() && SameBelow(old(nodes), nodes, n) && Evolves(old(nodes), nodes) && old(trace) <= trace
        invariant nodes[n].container == old(nodes[n].container) && nodes[n].parent == old(nodes[n].parent)
        invariant IsSuffix(nodes[n].pending, items)
        invariant simple ==> trace == old(trace) + SimpleEvents(items[..|items| - |nodes[n].pending|])
        decreases |nodes[n].pending|
      {
        ghost var before := nodes;
        ghost var done := |items| - |nodes[n].pending|;
        r := FlushFirst(n, true);
        if simple {
          SimpleEventsStep(items, done);
        }
        EvolvesTransitive(old(nodes), before, nodes);
        if r != Ok(true) {
          return;
        }
      }
      assert items[..|items|] == items;
      return Ok(true);
    }

    /**
     * closeAllButLastChild: as closeAndOutputChildren, except that the last
     * pending child may not close, so a container there is never finished.
     */
    method CloseAllButLastChild(n: NodeId) returns (r: Result<bool, OutputError>)
      requires Valid() && n < |nodes|
      modifies this
      decreases |nodes| - n, 2
      ensures Valid() && SameBelow(old(nodes), nodes, n) && Evolves(old(nodes), nodes) && old(trace) <= trace
      ensures nodes[n].container == old(nodes[n].container) && nodes[n].parent == old(nodes[n].parent)
      ensures IsSuffix(nodes[n].pending, old(nodes[n].pending))
      ensures r.Ok? ==> (r.value <==> nodes[n].pending == [])
      ensures r == Ok(false) ==> nodes[n].pending[0].Child?
      ensures old(nodes[n].pending) != [] && Last(old(nodes[n].pending)).Child? ==> nodes[n].pending != []
      ensures AllSimple(old(nodes[n].pending)) ==> r == Ok(true) && trace == old(trace) + SimpleEvents(old(nodes[n].pending))
    {
      ghost var items := nodes[n].pending;
      ghost var simple := AllSimple(items);
      while nodes[n].pending != []
        invariant Valid() && SameBelow(old(nodes), nodes, n) && Evolves(old(nodes), nodes) && old(trace) <= trace
        invariant nodes[n].container == old(nodes[n].container) && nodes[n].parent == old(nodes[n].parent)
        invariant IsSuffix(nodes[n].pending, items)
        invariant items != [] && Last(items).Child? ==> nodes[n].pending != []
        invariant simple ==> trace == old(trace) + SimpleEvents(items[..|items| - |nodes[n].pending|])
        decreases |nodes[n].pending|
      {
        ghost var before := nodes;
        ghost var done := |items| - |nodes[n].pending|;
        var notLast := |nodes[n].pending| > 1;
        r := FlushFirst(n, notLast);
        if simple {
          SimpleEventsStep(items, done);
        }
        EvolvesTransitive(old(nodes), before, nodes);
        if r != Ok(true) {
          return;
        }
      }
      assert items[..|items|] == items;
      return Ok(true);
    }

    /** The flush a container does in doOutput: closeAndOutputChildren when it may close, closeAllButLastChild otherwise. */
    method FlushPending(n: NodeId, canClose: bool) returns (r: Result<bool, OutputError>)
      requires Valid() && n < |nodes|
      modifies this
      decreases |nodes| - n, 3
      ensures Valid() && SameBelow(old(nodes), nodes, n) && Evolves(old(nodes), nodes) && old(trace) <= trace
      ensures nodes[n].container == old(nodes[n].container) && nodes[n].parent == old(nodes[n].parent)
      ensures IsSuffix(nodes[n].pending, old(nodes[n].pending))
      ensures r.Ok? ==> (r.value <==> nodes[n].pending == [])
    {
      if canClose {
        r := CloseAndOutputChildren(n);
      } else {
        r := CloseAllButLastChild(n);
      }
    }

    /** Empties the pending list of `n`, handing back what it held. */
    method TakePending(n: NodeId) returns (items: seq<Item>)
      requires Valid() && n < |nodes|
      modifies this
      ensures Valid() && trace == old(trace) && Evolves(old(nodes), nodes)
      ensures items == old(nodes[n].pending)
      ensures nodes == old(nodes)[n := old(nodes[n]).(pending := [])]
      ensures forall k :: 0 <= k < |items| && items[k].Child? ==>
                n < items[k].id < |nodes| && nodes[items[k].id].parent.Some?
                && !nodes[items[k].id].container.RootFragment?
    {
      items := nodes[n].pending;
      var nd := nodes[n].(pending := []);
      assert NodeOk(nodes, n);
      assert NodeOk(nodes[n := nd], n);
      ReplaceKeepsShape(nodes, n, nd);
      ReplaceEvolves(nodes, n, nd);
      nodes := nodes[n := nd];
    }

    /**
     * forceChildOutput: empties the pending list of `n` first, then forces
     * each former child out, in order.
     */
    method ForceChildOutput(n: NodeId) returns (err: Option<OutputError>)
      requires Valid() && n < |nodes|
      modifies this
      decreases |nodes| - n, 5
      ensures Valid() && SameBelow(old(nodes), nodes, n) && Evolves(old(nodes), nodes) && old(trace) <= trace
      ensures nodes[n] == old(nodes[n]).(pending := [])
      ensures err.None? ==> forall k :: 0 <= k < |old(nodes[n].pending)| && old(nodes[n].pending)[k].Child? ==>
                              old(nodes[n].pending)[k].id < |nodes|
                              && Finished(nodes[old(nodes[n].pending)[k].id].container)
    {
      var items := TakePending(n);
      var k := 0;
      while k < |items|
        invariant k <= |items|
        invariant Valid() && SameBelow(old(nodes), nodes, n) && Evolves(old(nodes), nodes) && old(trace) <= trace
        invariant nodes[n] == old(nodes[n]).(pending := [])
        invariant forall j :: k <= j < |items| && items[j].Child? ==>
                    n < items[j].id < |nodes| && nodes[items[j].id].parent.Some?
                    && !nodes[items[j].id].container.RootFragment?
        invariant forall j :: 0 <= j < k && items[j].Child? ==>
                    items[j].id < |nodes| && Finished(nodes[items[j].id].container)
      {
        ghost var before := nodes;
        err := ForceItem(n, items[k]);
        EvolvesTransitive(old(nodes), before, nodes);
        if err.Some? {
          return;
        }
        k := k + 1;
      }
      return None;
    }

    /** forceOutput on a former pending child of `n`. */
    method ForceItem(n: NodeId, item: Item) returns (err: Option<OutputError>)
      requires Valid() && n < |nodes|
      requires item.Child? ==> n < item.id < |nodes| && nodes[item.id].parent.Some?
                               && !nodes[item.id].container.RootFragment?
      modifies this
      decreases |nodes| - n, 0
      ensures Valid() && SameBelow(old(nodes), nodes, n + 1) && Evolves(old(nodes), nodes) && old(trace) <= trace
      ensures item.Simple? ==> err.None? && nodes == old(nodes) && trace == old(trace) + [item.event]
      ensures item.Child? && err.None? ==> item.id < |nodes| && Finished(nodes[item.id].container)
    {
      match item
      case Simple(e) =>
        trace := trace + [e];
        err := None;
      case Child(c) =>
        err := ForceOutput(c);
    }

    /** doOutput, dispatched on the kind of container `n`. */
    method DoOutput(n: NodeId, canClose: bool) returns (r: Result<bool, OutputError>)
      requires Valid() && n < |nodes|
      requires !nodes[n].container.RootFragment? ==> nodes[n].parent.Some?
      modifies this
      decreases |nodes| - n, 5
      ensures Valid() && SameBelow(old(nodes), nodes, n) && Evolves(old(nodes), nodes) && old(trace) <= trace
      ensures !canClose && !old(nodes[n].container).RootFragment? ==> r != Ok(true)
      ensures r == Ok(true) && !old(nodes[n].container).RootFragment? ==> Finished(nodes[n].container)
    {
      match nodes[n].container
      case RootFragment(_) =>
        r := RootDoOutput(n, canClose);
      case Element(_, _, _, _, _) =>
        r := ElementDoOutput(n, canClose);
      case BufferedFragment(_) =>
        r := FragmentDoOutput(n, canClose);
    }

    /**
     * SMRootFragment.doOutput: writes the pending children, with
     * closeAndOutputChildren when `canClose` and closeAllButLastChild
     * otherwise; an inactive root refuses.
     */
    method RootDoOutput(n: NodeId, canClose: bool) returns (r: Result<bool, OutputError>)
      requires Valid() && n < |nodes| && nodes[n].container.RootFragment?
      modifies this
      decreases |nodes| - n, 4
      ensures Valid() && SameBelow(old(nodes), nodes, n) && Evolves(old(nodes), nodes) && old(trace) <= trace
      ensures nodes[n].container == old(nodes[n].container) && nodes[n].parent == old(nodes[n].parent)
      ensures IsSuffix(nodes[n].pending, old(nodes[n].pending))
      ensures !old(nodes[n].container.active) ==> r == Err(RootClosed) && nodes == old(nodes) && trace == old(trace)
      ensures r.Ok? ==> (r.value <==> nodes[n].pending == [])
    {
      if !nodes[n].container.active {
        return Err(RootClosed);
      }
      if canClose {
        r := CloseAndOutputChildren(n);
      } else {
        r := CloseAllButLastChild(n);
      }
    }

    /**
     * The first half of SMOutputElement.doOutput: a blocked element writes
     * its start tag, one taking attributes closes its attribute scope.
     */
    method BeginElementOutput(n: NodeId)
      requires Valid() && n < |nodes| && nodes[n].parent.Some? && nodes[n].container.Element?
      requires nodes[n].container.state != OutputClosed
      modifies this
      ensures Valid() && Evolves(old(nodes), nodes) && |nodes| == |old(nodes)|
      ensures nodes == old(nodes)[n := nodes[n]]
      ensures nodes[n].parent == old(nodes[n].parent) && nodes[n].pending == old(nodes[n].pending)
      ensures nodes[n].container.Element?
      ensures old(nodes[n].container.state) == OutputNone ==>
                && nodes[n].container.state == StateAfterStart(old(nodes[n].pending))
                && trace == old(trace) + [StartTag(old(nodes[n].container.ns), old(nodes[n].container.localName))]
      ensures old(nodes[n].container.state) != OutputNone ==>
                nodes[n].container.state == OutputChildren && trace == old(trace)
    {
      var c := nodes[n].container;
      if c.state == OutputNone {
        WriteStartElement(n);
      } else {
        SetContainer(n, c.(state := OutputChildren));
      }
    }

    /**
     * SMOutputElement.doOutput: a blocked element first writes its start
     * tag; then its pending children are written (the last one left open
     * unless `canClose`); the element closes, writing its end tag, exactly
     * when `canClose` holds and no pending child is left.
     */
    method ElementDoOutput(n: NodeId, canClose: bool) returns (r: Result<bool, OutputError>)
      requires Valid() && n < |nodes| && nodes[n].parent.Some? && nodes[n].container.Element?
      modifies this
      decreases |nodes| - n, 4
      ensures Valid() && SameBelow(old(nodes), nodes, n) && Evolves(old(nodes), nodes) && old(trace) <= trace
      ensures nodes[n].parent == old(nodes[n].parent) && nodes[n].container.Element?
      ensures IsSuffix(nodes[n].pending, old(nodes[n].pending))
      ensures old(nodes[n].container.state) == OutputClosed ==>
                r == Err(ContainerClosed) && nodes == old(nodes) && trace == old(trace)
      ensures old(nodes[n].container.state) == OutputNone ==>
                |trace| > |old(trace)| && trace[|old(trace)|] == StartTag(old(nodes[n].container.ns), old(nodes[n].container.localName))
      ensures r.Ok? ==> (r.value <==> canClose && nodes[n].pending == [])
      ensures r == Ok(true) ==>
                && nodes[n].container.state == OutputClosed && |trace| > 0
                && Last(trace) == EndTag(nodes[n].container.parentNsCount, nodes[n].container.parentDefaultNs)
      ensures r == Ok(false) ==> nodes[n].container.state == OutputAttrs || nodes[n].container.state == OutputChildren
    {
      if nodes[n].container.state == OutputClosed {
        return Err(ContainerClosed);
      }
      BeginElementOutput(n);
      ghost var started := nodes;
      if nodes[n].pending != [] {
        var flushed := FlushPending(n, canClose);
        EvolvesTransitive(old(nodes), started, nodes);
        if flushed.Err? {
          return Err(flushed.error);
        }
      }
      if !canClose || nodes[n].pending != [] {
        return Ok(false);
      }
      ghost var flushedNodes := nodes;
      WriteEndElement(n);
      EvolvesTransitive(old(nodes), flushedNodes, nodes);
      r := Ok(true);
    }

    /**
     * doOutput on a buffered fragment: nothing while it is held back;
     * once released it is reached, writes its pending children and is done
     * when `canClose` holds and none is left.
     */
    method FragmentDoOutput(n: NodeId, canClose: bool) returns (r: Result<bool, OutputError>)
      requires Valid() && n < |nodes| && nodes[n].parent.Some? && nodes[n].container.BufferedFragment?
      modifies this
      decreases |nodes| - n, 4
      ensures Valid() && SameBelow(old(nodes), nodes, n) && Evolves(old(nodes), nodes) && old(trace) <= trace
      ensures nodes[n].parent == old(nodes[n].parent) && nodes[n].container.BufferedFragment?
      ensures IsSuffix(nodes[n].pending, old(nodes[n].pending))
      ensures old(nodes[n].container.fragment) == Buffered ==> r == Ok(false) && nodes == old(nodes) && trace == old(trace)
      ensures old(nodes[n].container.fragment) == Done ==> r == Err(ContainerClosed) && nodes == old(nodes) && trace == old(trace)
      ensures old(nodes[n].container.fragment) in {Released, Open} && r.Ok? ==>
                (r.value <==> canClose && nodes[n].pending == [])
                && nodes[n].container.fragment == (if r.value then Done else Open)
    {
      var f := nodes[n].container.fragment;
      if f == Buffered {
        return Ok(false);
      }
      if f == Done {
        return Err(ContainerClosed);
      }
      SetContainer(n, BufferedFragment(Open));
      ghost var reached := nodes;
      var flushed := FlushPending(n, canClose);
      EvolvesTransitive(old(nodes), reached, nodes);
      if flushed.Err? {
        return Err(flushed.error);
      }
      if !canClose || !flushed.value {
        return Ok(false);
      }
      ghost var flushedNodes := nodes;
      SetContainer(n, BufferedFragment(Done));
      EvolvesTransitive(old(nodes), flushedNodes, nodes);
      r := Ok(true);
    }

    /** forceOutput, dispatched on the kind of container `n`. */
    method ForceOutput(n: NodeId) returns (err: Option<OutputError>)
      requires Valid() && n < |nodes|
      requires !nodes[n].container.RootFragment? ==> nodes[n].parent.Some?
      modifies this
      decreases |nodes| - n, 7
      ensures Valid() && SameBelow(old(nodes), nodes, n) && Evolves(old(nodes), nodes) && old(trace) <= trace
      ensures !old(nodes[n].container).RootFragment? && err.None? ==> Finished(nodes[n].container) && nodes[n].pending == []
    {
      match nodes[n].container
      case RootFragment(_) =>
        err := RootForceOutput(n);
      case Element(_, _, _, _, _) =>
        err := ElementForceOutput(n);
      case BufferedFragment(_) =>
        err := FragmentForceOutput(n);
    }

    /** SMRootFragment.forceOutput: forces every pending child out; an inactive root refuses. */
    method RootForceOutput(n: NodeId) returns (err: Option<OutputError>)
      requires Valid() && n < |nodes| && nodes[n].container.RootFragment?
      modifies this
      decreases |nodes| - n, 6
      ensures Valid() && SameBelow(old(nodes), nodes, n) && Evolves(old(nodes), nodes) && old(trace) <= trace
      ensures !old(nodes[n].container.active) ==> err == Some(RootClosed) && nodes == old(nodes) && trace == old(trace)
      ensures old(nodes[n].container.active) ==> nodes[n] == old(nodes[n]).(pending := [])
    {
      if !nodes[n].container.active {
        return Some(RootClosed);
      }
      err := ForceChildOutput(n);
    }

    /**
     * SMOutputElement.forceOutput: asks doOutput to close first; failing
     * that, forces every pending child out and writes the end tag.
     */
    method ElementForceOutput(n: NodeId) returns (err: Option<OutputError>)
      requires Valid() && n < |nodes| && nodes[n].parent.Some? && nodes[n].container.Element?
      modifies this
      decreases |nodes| - n, 6
      ensures Valid() && SameBelow(old(nodes), nodes, n) && Evolves(old(nodes), nodes) && old(trace) <= trace
      ensures old(nodes[n].container.state) == OutputClosed ==> err == Some(ContainerClosed) && nodes == old(nodes) && trace == old(trace)
      ensures err.None? ==>
                && nodes[n].container.Element? && nodes[n].container.state == OutputClosed && nodes[n].pending == []
                && |trace| > 0 && Last(trace) == EndTag(nodes[n].container.parentNsCount, nodes[n].container.parentDefaultNs)
    {
      var r := ElementDoOutput(n, true);
      if r.Err? {
        return Some(r.error);
      }
      if !r.value {
        ghost var tried := nodes;
        err := ForceChildOutput(n);
        EvolvesTransitive(old(nodes), tried, nodes);
        if err.Some? {
          return;
        }
        ghost var forced := nodes;
        WriteEndElement(n);
        EvolvesTransitive(old(nodes), forced, nodes);
      }
      err := None;
    }

    /** forceOutput on a buffered fragment: forces every pending child out, held back or not, and is done. */
    method FragmentForceOutput(n: NodeId) returns (err: Option<OutputError>)
      requires Valid() && n < |nodes| && nodes[n].parent.Some? && nodes[n].container.BufferedFragment?
      modifies this
      decreases |nodes| - n, 6
      ensures Valid() && SameBelow(old(nodes), nodes, n) && Evolves(old(nodes), nodes) && old(trace) <= trace
      ensures old(nodes[n].container.fragment) == Done ==> err == Some(ContainerClosed) && nodes == old(nodes) && trace == old(trace)
      ensures err.None? ==> nodes[n].container == BufferedFragment(Done) && nodes[n].pending == []
    {
      if nodes[n].container.fragment == Done {
        return Some(ContainerClosed);
      }
      err := ForceChildOutput(n);
      if err.Some? {
        return;
      }
      ghost var forced := nodes;
      SetContainer(n, BufferedFragment(Done));
      EvolvesTransitive(old(nodes), forced, nodes);
    }

    /**
     * canOutputNewChild: whether something added to `n` now may be written
     * at once. Pending children are flushed first (closing each); an element
     * taking attributes closes its attribute scope; a blocked element and a
     * fragment not yet reached say no; a closed container refuses.
     */
    method CanOutputNewChild(n: NodeId) returns (r: Result<bool, OutputError>)
      requires Valid() && n < |nodes|
      modifies this
      ensures Valid() && SameBelow(old(nodes), nodes, n) && Evolves(old(nodes), nodes) && old(trace) <= trace
      ensures nodes[n].parent == old(nodes[n].parent)
      ensures IsSuffix(nodes[n].pending, old(nodes[n].pending))
      ensures r.Ok? ==> (r.value <==> Writable(nodes[n].container) && nodes[n].pending == [])
      ensures r.Ok? ==> Accepts(nodes[n].container)
      ensures !Accepts(old(nodes[n].container)) && !(old(nodes[n].container).Element? && old(nodes[n].container).state == OutputAttrs) ==>
                r.Err? && nodes == old(nodes) && trace == old(trace)
      ensures old(nodes[n].container).Element? && r.Ok? ==>
                nodes[n].container == old(nodes[n].container).(state := if old(nodes[n].container.state) == OutputNone
                                                                         then OutputNone else OutputChildren)
      ensures !old(nodes[n].container).Element? ==> nodes[n].container == old(nodes[n].container)
      ensures old(nodes[n].pending) == [] && Writable(old(nodes[n].container)) ==> r == Ok(true) && nodes == old(nodes) && trace == old(trace)
      ensures old(nodes[n].pending) == [] && old(nodes[n].container).Element? && old(nodes[n].container.state) == OutputAttrs ==>
                r == Ok(true) && trace == old(trace)
      ensures Held(old(nodes[n].container)) ==> r == Ok(false) && nodes[n] == old(nodes[n]) && trace == old(trace)
    {
      var c := nodes[n].container;
      match c {
        case RootFragment(active) =>
          if !active {
            return Err(RootClosed);
          }
        case Element(_, _, s, _, _) =>
          if s == OutputNone {
            return Ok(false);
          } else if s == OutputClosed {
            return Err(ContainerClosed);
          } else if s == OutputAttrs {
            assert NodeOk(nodes, n);
            SetContainer(n, c.(state := OutputChildren));
          }
        case BufferedFragment(f) =>
          if f == Buffered || f == Released {
            return Ok(false);
          } else if f == Done {
            return Err(ContainerClosed);
          }
      }
      if nodes[n].pending == [] {
        return Ok(true);
      }
      r := CloseAndOutputChildren(n);
    }

    /**
     * addCharacters, addCData, addComment, addEntityRef and
     * addProcessingInstruction: the event is written at once when `n` can
     * output a new child, and kept as the last pending child otherwise.
     */
    method AddSimple(n: NodeId, e: OutEvent) returns (err: Option<OutputError>, ghost written: bool)
      requires Valid() && n < |nodes|
      modifies this
      ensures Valid() && old(trace) <= trace && |nodes| == |old(nodes)|
      ensures nodes[n].parent == old(nodes[n].parent) && ContainerEvolves(old(nodes[n].container), nodes[n].container)
      ensures err.None? && written ==>
                && |trace| > |old(trace)| && Last(trace) == e
                && nodes[n].pending == [] && Writable(nodes[n].container)
      ensures err.None? && !written ==>
                && nodes[n].pending != [] && Last(nodes[n].pending) == Simple(e)
                && IsSuffix(nodes[n].pending[..|nodes[n].pending| - 1], old(nodes[n].pending))
      ensures old(nodes[n].container).Element? && err.None? ==>
                nodes[n].container == old(nodes[n].container).(state := if old(nodes[n].container.state) == OutputNone
                                                                         then OutputNone else OutputChildren)
      ensures old(nodes[n].pending) == [] && old(nodes[n].container).Element? && old(nodes[n].container.state) != OutputNone ==>
                written || err.Some?
      ensures old(nodes[n].pending) == [] && Writable(old(nodes[n].container)) ==>
                err.None? && nodes == old(nodes) && trace == old(trace) + [e]
      ensures old(nodes[n].pending) == [] && old(nodes[n].container).Element? && old(nodes[n].container.state) == OutputAttrs ==>
                err.None? && trace == old(trace) + [e]
      ensures Held(old(nodes[n].container)) ==>
                err.None? && trace == old(trace)
                && nodes[n] == old(nodes[n]).(pending := old(nodes[n].pending) + [Simple(e)])
    {
      var can := CanOutputNewChild(n);
      if can.Err? {
        return Some(can.error), false;
      }
      if can.value {
        trace := trace + [e];
        return None, true;
      }
      ghost var front := nodes[n].pending;
      LinkNewChild(n, Simple(e));
      assert nodes[n].pending[..|nodes[n].pending| - 1] == front;
      return None, false;
    }

    /** addValue(boolean): the text "true" or "false" as character data. */
    method AddBooleanValue(n: NodeId, value: bool) returns (err: Option<OutputError>, ghost written: bool)
      requires Valid() && n < |nodes|
      modifies this
      ensures Valid() && old(trace) <= trace && |nodes| == |old(nodes)|
      ensures err.None? && written ==> |trace| > 0 && Last(trace) == Characters(BoolText(value))
      ensures err.None? && !written ==> nodes[n].pending != [] && Last(nodes[n].pending) == Simple(Characters(BoolText(value)))
    {
      err, written := AddSimple(n, Characters(if value then "true" else "false"));
    }

    /** addValue(int) and addValue(long): the decimal text of the value as character data. */
    method AddIntegerValue(n: NodeId, value: int) returns (err: Option<OutputError>, ghost written: bool)
      requires Valid() && n < |nodes|
      requires LONG_MIN <= value <= LONG_MAX
      modifies this
      ensures Valid() && old(trace) <= trace && |nodes| == |old(nodes)|
      ensures err.None? && written ==> |trace| > 0 && Last(trace) == Characters(IntToString(value))
      ensures err.None? && !written ==> nodes[n].pending != [] && Last(nodes[n].pending) == Simple(Characters(IntToString(value)))
    {
      err, written := AddSimple(n, Characters(IntToString(value)));
    }

    /**
     * addElement: a new element, with the namespace resolved for this
     * context, becomes the last child of `n`; it writes its start tag at
     * once unless `n` could not output a new child, and is blocked otherwise.
     * Its parent is set before it is appended to the pending list: a new
     * element cannot be relinked, so the order does not show.
     */
    method AddElement(n: NodeId, ns: Option<Namespace>, localName: string) returns (r: Result<NodeId, OutputError>)
      requires Valid() && n < |nodes|
      modifies this
      ensures Valid() && old(trace) <= trace
      ensures r.Ok? ==>
                var e := r.value;
                && e == |old(nodes)| && |nodes| == e + 1
                && nodes[e].parent == Some(n) && nodes[e].pending == []
                && nodes[e].container.Element?
                && nodes[e].container.ns == ResolveNamespace(ns, contextId)
                && nodes[e].container.localName == localName
                && nodes[n].pending != [] && Last(nodes[n].pending) == Child(e)
                && (nodes[e].container.state == OutputAttrs <==> Writable(nodes[n].container) && nodes[n].pending == [Child(e)])
                && (nodes[e].container.state == OutputAttrs || nodes[e].container.state == OutputNone)
                && (nodes[e].container.state == OutputAttrs ==> |trace| > 0 && Last(trace) == StartTag(ResolveNamespace(ns, contextId), localName))
      ensures r.Err? ==> |nodes| == |old(nodes)|
    {
      var resolved := ResolveNamespace(ns, contextId);
      var can := CanOutputNewChild(n);
      if can.Err? {
        return Err(can.error);
      }
      ghost var w := Writable(nodes[n].container) && nodes[n].pending == [];
      assert can.value == w;
      var e := NewLinkedElement(n, resolved, localName, !can.value);
      assert nodes[e].container.state == OutputAttrs <==> w;
      r := Ok(e);
    }

    /**
     * The creating and linking half of addElement: a new element named
     * `localName` in `ns` gets `n` as its parent, writes its start tag
     * unless it is blocked, and becomes the last pending child of `n`.
     */
    method NewLinkedElement(n: NodeId, ns: Namespace, localName: string, blocked: bool) returns (e: NodeId)
      requires Valid() && n < |nodes| && Accepts(nodes[n].container)
      modifies this
      ensures Valid() && e == |old(nodes)| && |nodes| == e + 1
      ensures nodes[n] == old(nodes[n]).(pending := old(nodes[n].pending) + [Child(e)])
      ensures nodes[e] == if blocked then Node(Element(ns, localName, OutputNone, 0, None), Some(n), [])
                          else Node(Element(ns, localName, OutputAttrs, nsCount, defaultNs), Some(n), [])
      ensures trace == if blocked then old(trace) else old(trace) + [StartTag(ns, localName)]
    {
      e := NewElement(ns, localName);
      var linkErr := LinkParent(e, n, blocked);
      LinkNewChild(n, Child(e));
    }

    /**
     * addCharacters on an element that has just been added: it was blocked
     * and keeps the text as its only pending child, or it had written its
     * start tag and now writes the text, which ends its attributes.
     */
    method AddFirstCharacters(e: NodeId, text: string) returns (err: Option<OutputError>)
      requires Valid() && e < |nodes| && nodes[e].pending == [] && nodes[e].container.Element?
      requires nodes[e].container.state == OutputNone || nodes[e].container.state == OutputAttrs
      modifies this
      ensures Valid() && old(trace) <= trace && |nodes| == |old(nodes)|
      ensures nodes[e].parent == old(nodes[e].parent)
      ensures nodes[e].container.Element? && nodes[e].container.localName == old(nodes[e].container.localName)
      ensures err.None? ==>
                || (nodes[e].container.state == OutputChildren && |trace| > 0 && Last(trace) == Characters(text))
                || (nodes[e].container.state == OutputNone && nodes[e].pending == [Simple(Characters(text))])
    {
      ghost var written;
      err, written := AddSimple(e, Characters(text));
      if err.None? && !written {
        assert nodes[e].pending[..|nodes[e].pending| - 1] == [];
      }
    }

    /**
     * addElementWithCharacters: addElement followed by addCharacters on the
     * new element, which therefore takes no attributes afterwards.
     */
    method AddElementWithCharacters(n: NodeId, ns: Option<Namespace>, localName: string, text: string)
      returns (r: Result<NodeId, OutputError>)
      requires Valid() && n < |nodes|
      modifies this
      ensures Valid() && old(trace) <= trace
      ensures r.Ok? ==>
                var e := r.value;
                && e == |old(nodes)| && |nodes| == e + 1 && nodes[e].parent == Some(n)
                && nodes[e].container.Element? && nodes[e].container.localName == localName
                && (|| (nodes[e].container.state == OutputChildren && |trace| > 0 && Last(trace) == Characters(text))
                    || (nodes[e].container.state == OutputNone && nodes[e].pending == [Simple(Characters(text))]))
    {
      r := AddElement(n, ns, localName);
      if r.Err? {
        return;
      }
      var e := r.value;
      var err := AddFirstCharacters(e, text);
      if err.Some? {
        return Err(err.value);
      }
    }

    /**
     * addBuffered: buffered fragment `b` becomes the last child of `n`,
     * blocked or not as `n` could output a new child. As in the source, the
     * fragment is appended even when setting its parent fails because it had
     * one already.
     */
    method AddBuffered(n: NodeId, b: NodeId) returns (err: Option<OutputError>)
      requires Valid() && n < b < |nodes| && nodes[b].container.BufferedFragment?
      modifies this
      ensures Valid() && old(trace) <= trace && |nodes| == |old(nodes)|
      ensures old(nodes[b].parent).Some? ==> err.Some?
      ensures err.None? ==>
                && nodes[b].parent == Some(n) && nodes[b].container.BufferedFragment?
                && nodes[n].pending != [] && Last(nodes[n].pending) == Child(b)
    {
      var can := CanOutputNewChild(n);
      if can.Err? {
        return Some(can.error);
      }
      err := LinkParent(b, n, !can.value);
      LinkNewChild(n, Child(b));
    }

    /** addAndReleaseBuffered: addBuffered, then release of the fragment. */
    method AddAndReleaseBuffered(n: NodeId, b: NodeId) returns (err: Option<OutputError>)
      requires Valid() && n < b < |nodes| && nodes[b].container.BufferedFragment?
      modifies this
      ensures Valid() && old(trace) <= trace && |nodes| == |old(nodes)|
      ensures old(nodes[b].parent).Some? ==> err.Some?
      ensures err.None? ==> nodes[b].parent == Some(n) && nodes[b].container.BufferedFragment? && nodes[b].container.fragment != Buffered
    {
      err := AddBuffered(n, b);
      if err.Some? {
        return;
      }
      err := Release(b);
    }

    /**
     * release: a held-back fragment is released and its container is told,
     * which writes it, and what follows it, when nothing before it is still
     * held back. Releasing a fragment twice does nothing more.
     */
    method Release(f: NodeId) returns (err: Option<OutputError>)
      requires Valid() && f < |nodes| && nodes[f].container.BufferedFragment?
      modifies this
      ensures Valid() && old(trace) <= trace && |nodes| == |old(nodes)| && Evolves(old(nodes), nodes)
      ensures nodes[f].parent == old(nodes[f].parent)
      ensures nodes[f].container.BufferedFragment? && nodes[f].container.fragment != Buffered
      ensures old(nodes[f].container.fragment) != Buffered ==> err.None? && nodes == old(nodes) && trace == old(trace)
    {
      if nodes[f].container.fragment != Buffered {
        return None;
      }
      SetContainer(f, BufferedFragment(Released));
      if nodes[f].parent.None? {
        return None;
      }
      assert NodeOk(nodes, f);
      ghost var released := nodes;
      err := ChildReleased(nodes[f].parent.value, f);
      EvolvesTransitive(old(nodes), released, nodes);
    }

    /**
     * childReleased: only the release of the first pending child matters.
     * The root then writes what it can (all but the last child closed); an
     * element past its start tag and a reached fragment pass the news on to
     * their own container; a blocked element and a fragment not yet reached
     * wait for their container to reach them.
     */
    method ChildReleased(n: NodeId, child: NodeId) returns (err: Option<OutputError>)
      requires Valid() && n < child < |nodes|
      modifies this
      decreases n
      ensures Valid() && old(trace) <= trace && |nodes| == |old(nodes)| && Evolves(old(nodes), nodes)
      ensures var stop := ReleaseStop(old(nodes), n, child);
              old(nodes[stop.0].container) == RootFragment(false) ==>
                err == Some(RootClosed) && nodes == old(nodes) && trace == old(trace)
      ensures var stop := ReleaseStop(old(nodes), n, child);
              !old(nodes[stop.0].container).RootFragment? || !HeadsQueue(old(nodes[stop.0]), stop.1) ==>
                (old(nodes[stop.0].container) == RootFragment(false) || err.None?) && nodes == old(nodes) && trace == old(trace)
      ensures var stop := ReleaseStop(old(nodes), n, child);
              old(nodes[stop.0].container) == RootFragment(true) && HeadsQueue(old(nodes[stop.0]), stop.1) ==>
                && SameBelow(old(nodes), nodes, stop.0)
                && nodes[stop.0].container == old(nodes[stop.0].container)
                && IsSuffix(nodes[stop.0].pending, old(nodes[stop.0].pending))
                && (err.None? ==> nodes[stop.0].pending == [] || nodes[stop.0].pending[0].Child?)
                && (Last(old(nodes[stop.0].pending)).Child? ==> nodes[stop.0].pending != [])
    {
      var first := nodes[n].pending != [] && nodes[n].pending[0] == Child(child);
      assert NodeOk(nodes, n);
      match nodes[n].container {
        case RootFragment(active) =>
          if !active {
            return Some(RootClosed);
          }
          if first {
            var r := CloseAllButLastChild(n);
            if r.Err? {
              return Some(r.error);
            }
          }
          return None;
        case Element(_, _, s, _, _) =>
          if !first || s == OutputNone {
            return None;
          }
          if s == OutputChildren {
            err := ChildReleased(nodes[n].parent.value, n);
          } else {
            // OUTPUT_ATTRS and OUTPUT_CLOSED: an element in these states has no pending children
            assert false;
          }
        case BufferedFragment(f) =>
          if first && f == Open {
            err := ChildReleased(nodes[n].parent.value, n);
          } else {
            return None;
          }
      }
    }

    /**
     * addAttribute: written at once while the element takes attributes,
     * dropped while it is blocked, refused once children have been added or
     * the element is closed.
     */
    method AddAttribute(e: NodeId, ns: Option<Namespace>, localName: string, value: string) returns (err: Option<OutputError>)
      requires e < |nodes| && nodes[e].container.Element?
      modifies this
      ensures nodes == old(nodes)
      ensures nodes[e].container.state == OutputNone ==> err.None? && trace == old(trace)
      ensures nodes[e].container.state == OutputAttrs ==>
                err.None? && trace == old(trace) + [Attr(ResolveNamespace(ns, contextId), localName, value)]
      ensures nodes[e].container.state == OutputChildren ==> err == Some(AttributesClosed("CHILDREN-ADDED")) && trace == old(trace)
      ensures nodes[e].container.state == OutputClosed ==> err == Some(AttributesClosed("ELEMENT-CLOSED")) && trace == old(trace)
    {
      var attrNs := ResolveNamespace(ns, contextId);
      match nodes[e].container.state {
        case OutputNone =>
          err := None;
        case OutputAttrs =>
          trace := trace + [Attr(attrNs, localName, value)];
          err := None;
        case OutputChildren =>
          err := Some(AttributesClosed("CHILDREN-ADDED"));
        case OutputClosed =>
          err := Some(AttributesClosed("ELEMENT-CLOSED"));
      }
    }

    /** addAttribute with an int value: the value's decimal text. */
    method AddIntAttribute(e: NodeId, ns: Option<Namespace>, localName: string, value: int) returns (err: Option<OutputError>)
      requires e < |nodes| && nodes[e].container.Element?
      requires INT_MIN <= value <= INT_MAX
      modifies this
      ensures nodes == old(nodes)
      ensures nodes[e].container.state == OutputAttrs ==>
                err.None? && |trace| > 0 && Last(trace).Attr? && ParseInt(Some(Last(trace).value)) == Ok(value)
    {
      err := AddAttribute(e, ns, localName, IntToString(value));
      ParseIntLongRoundTrip(value);
    }

    /**
     * closeRoot: writes everything that is left, forcing held-back
     * children out when writing them in order does not finish; the root is
     * then inactive and the writer is flushed. Closing twice does nothing.
     */
    method CloseRoot(n: NodeId) returns (err: Option<OutputError>)
      requires Valid() && n < |nodes| && nodes[n].container.RootFragment?
      modifies this
      ensures Valid() && old(trace) <= trace && |nodes| == |old(nodes)|
      ensures !old(nodes[n].container.active) ==> err.None? && nodes == old(nodes) && trace == old(trace)
      ensures err.None? ==> nodes[n].container == RootFragment(false) && nodes[n].pending == []
      ensures old(nodes[n].container.active) && err.None? ==> |trace| > 0 && Last(trace) == Flush
    {
      if !nodes[n].container.active {
        assert NodeOk(nodes, n);
        return None;
      }
      var r := RootDoOutput(n, true);
      if r.Err? {
        return Some(r.error);
      }
      if !r.value {
        err := RootForceOutput(n);
        if err.Some? {
          return;
        }
      }
      SetContainer(n, RootFragment(false));
      trace := trace + [Flush];
      err := None;
    }
  }
}
