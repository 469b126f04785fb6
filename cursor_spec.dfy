/**
 * What one advance of an input cursor does to the shared stream and to the
 * cursor's own counters, written as functions over the token sequence. The
 * Cursor class is proved against these functions; the lemmas here state what
 * they guarantee on a well-formed stream.
 */
module CursorSpec {
  import opened Wrappers
  import opened XmlTokens
  import opened ElementTracking
  import opened JavaStrings

  /** The life cycle of a cursor: INITIAL, then ACTIVE and HAS_CHILD in turn, then CLOSED. */
  datatype State = Initial | Active | HasChild | Closed

  /**
   * The comparison that ends a flattening cursor's scope at an END_ELEMENT
   * of depth `depth`: strictly below the base depth, or at most the base depth.
   */
  datatype EndCheck = DepthBelowBase | DepthAtMostBase

  predicate ClosesScope(check: EndCheck, depth: int, base: int)
  {
    if check == DepthBelowBase then depth < base else depth <= base
  }

  /** A cursor filter: whether the cursor shows the event it is on. */
  type Filter = Token -> bool

  /** What a cursor is configured with: its kind, base depth, filter and tracking. */
  datatype Config = Config(
    flattening: bool, base: nat, filter: Option<Filter>, tracking: Tracking,
    factory: Option<InfoFactory>, parentTracked: Option<ElementInfo>)

  /** The stream position and the cursor fields an advance changes. */
  datatype Progress = Progress(
    pos: nat, nodeCount: nat, elemCount: nat,
    currEvent: Option<EventKind>, tracked: Option<ElementInfo>)

  /** The parent count a cursor without an open child reports while on token `t`. */
  function ParentCountOn(flattening: bool, base: int, t: Token): int
  {
    if !flattening then base
    else if t.kind == StartElement || t.kind == EndElement then t.depth - 1
    else t.depth
  }

  // ---------------------------------------------------------------------
  // Draining the stream to an END_ELEMENT
  // ---------------------------------------------------------------------

  /** Where a drain stopped, and whether it stopped at the END_ELEMENT it was looking for. */
  datatype Drain = Drained(at: nat) | DrainFailed(err: ReadError, at: nat)

  /**
   * Moves through tokens[i..] up to the END_ELEMENT of depth `d`, passing over
   * deeper END_ELEMENTs. A shallower END_ELEMENT or END_DOCUMENT is an error,
   * and so is running out of tokens.
   */
  function DrainTo(tokens: seq<Token>, i: nat, d: int): (r: Drain)
    requires i < |tokens|
    ensures i <= r.at < |tokens|
    ensures r.Drained? ==> tokens[r.at].kind == EndElement && tokens[r.at].depth == d
    ensures forall k :: i <= k < r.at ==>
      tokens[k].kind != EndDocument && (tokens[k].kind == EndElement ==> tokens[k].depth > d)
    ensures r == DrainFailed(UnexpectedEndDocument, r.at) <==> r.DrainFailed? && tokens[r.at].kind == EndDocument
    ensures r.DrainFailed? && r.err.WrongEndElement? ==>
      tokens[r.at].kind == EndElement && r.err == WrongEndElement(d, tokens[r.at].depth) && tokens[r.at].depth < d
    ensures r == DrainFailed(NoMoreEvents, r.at) ==> r.at == |tokens| - 1
    decreases |tokens| - i
  {
    var t := tokens[i];
    if t.kind == EndElement && t.depth <= d then
      (if t.depth == d then Drained(i) else DrainFailed(WrongEndElement(d, t.depth), i))
    else if t.kind == EndDocument then DrainFailed(UnexpectedEndDocument, i)
    else if i + 1 < |tokens| then DrainTo(tokens, i + 1, d)
    else DrainFailed(NoMoreEvents, i)
  }

  /** skipToEndElement: read past the subtree of the START_ELEMENT at `pos`, to the END_ELEMENT at base+1. */
  function SkipSubtree(tokens: seq<Token>, pos: nat, base: int): (r: Drain)
    requires pos < |tokens|
    ensures pos <= r.at < |tokens|
    ensures r.Drained? ==> pos < r.at && tokens[r.at].kind == EndElement && tokens[r.at].depth == base + 1
  {
    if pos + 1 < |tokens| then DrainTo(tokens, pos + 1, base + 1) else DrainFailed(NoMoreEvents, pos)
  }

  /** On a well-formed stream, a drain that starts inside element depth `d` reaches its END_ELEMENT. */
  lemma {:induction false} DrainFromInside(tokens: seq<Token>, i: nat, d: int)
    requires WellFormed(tokens) && 1 <= i < |tokens| && d >= 1
    requires InnerAfter(tokens[i - 1]) >= d
    ensures DrainTo(tokens, i, d).Drained?
    decreases |tokens| - i
  {
    assert StepAt(tokens, i);
    var t := tokens[i];
    if t.kind == EndElement && t.depth <= d {
    } else {
      assert t.kind != EndDocument;
      assert i + 1 < |tokens|;
      DrainFromInside(tokens, i + 1, d);
    }
  }

  /** The same, for a drain that starts on a token of depth at least `d`. */
  lemma DrainFromToken(tokens: seq<Token>, i: nat, d: int)
    requires WellFormed(tokens) && 0 <= i < |tokens| && d >= 1
    requires tokens[i].depth >= d
    ensures DrainTo(tokens, i, d).Drained?
  {
    var t := tokens[i];
    if !(t.kind == EndElement && t.depth <= d) {
      assert StepAt(tokens, |tokens| - 1);
      assert i + 1 < |tokens|;
      DrainFromInside(tokens, i + 1, d);
    }
  }

  /** Rewinding from an END_ELEMENT of the target depth reads no token. */
  lemma DrainAtTarget(tokens: seq<Token>, i: nat, d: int)
    requires i < |tokens| && tokens[i].kind == EndElement && tokens[i].depth == d
    ensures DrainTo(tokens, i, d) == Drained(i)
  {
  }

  // ---------------------------------------------------------------------
  // The main loop of getNext
  // ---------------------------------------------------------------------

  /** The snapshot taken for START_ELEMENT `t`, with `q` the cursor fields after reading it. */
  function Snapshot(cfg: Config, t: Token, q: Progress, prev: Option<ElementInfo>): ElementInfo
  {
    ConstructElementInfo(cfg.factory, cfg.parentTracked, prev, t, q.nodeCount, q.elemCount,
                         ParentCountOn(cfg.flattening, cfg.base, t))
  }

  /** A token the loop hands back to the caller. */
  predicate Returnable(cfg: Config, check: EndCheck, t: Token)
  {
    && t.kind != EndDocument
    && (t.kind == EndElement ==> cfg.flattening && !ClosesScope(check, t.depth, cfg.base))
    && (cfg.filter.Some? ==> cfg.filter.value(t))
  }

  /** A token at which the loop ends the cursor's scope. */
  predicate ClosesAt(cfg: Config, check: EndCheck, tokens: seq<Token>, pos: nat)
    requires pos < |tokens|
  {
    || (tokens[pos].kind == EndElement && (cfg.flattening ==> ClosesScope(check, tokens[pos].depth, cfg.base)))
    || (cfg.base == 0 && (tokens[pos].kind == EndDocument || pos == |tokens| - 1))
  }

  /** How the loop of one getNext call ended. */
  datatype LoopOutcome = Yield(p: Progress) | Close(p: Progress) | Fail(err: ReadError, p: Progress)

  /** What one pass of the loop body does: go round again from the new fields, or leave the loop. */
  datatype Round = Again(p: Progress) | Leave(o: LoopOutcome)

  /**
   * One pass of the loop body of getNext, from stream position p.pos: read
   * the next token and count it, end the scope at the END_ELEMENT (or, at
   * the root, at END_DOCUMENT or the end of input), pass over an event the
   * filter rejects (skipping a rejected START_ELEMENT's subtree in a nested
   * cursor), take element snapshots as the tracking mode asks, and leave
   * with an event the filter accepts.
   */
  function LoopBody(cfg: Config, check: EndCheck, tokens: seq<Token>, p: Progress): (r: Round)
    requires p.pos < |tokens|
    ensures r.Again? ==>
      && p.pos < r.p.pos < |tokens|
      && p.nodeCount < r.p.nodeCount && p.elemCount <= r.p.elemCount
    ensures r.Leave? ==>
      && p.pos <= r.o.p.pos < |tokens|
      && p.nodeCount <= r.o.p.nodeCount && p.elemCount <= r.o.p.elemCount
      && (r.o.Yield? ==>
            && p.pos < r.o.p.pos
            && r.o.p.currEvent == Some(tokens[r.o.p.pos].kind)
            && Returnable(cfg, check, tokens[r.o.p.pos]))
      && (r.o.Close? ==> r.o.p.currEvent.None? && ClosesAt(cfg, check, tokens, r.o.p.pos))
  {
    if p.pos + 1 >= |tokens| then
      Leave(if cfg.base == 0 then Close(p.(currEvent := None)) else Fail(NoMoreEvents, p))
    else
      var i := p.pos + 1;
      var t := tokens[i];
      if cfg.base == 0 && t.kind == EndDocument then Leave(Close(p.(pos := i, currEvent := None)))
      else
        var n := p.nodeCount + 1;
        if t.kind == EndElement && (!cfg.flattening || ClosesScope(check, t.depth, cfg.base)) then
          Leave(Close(p.(pos := i, nodeCount := n, currEvent := None)))
        else if t.kind == EndDocument then
          Leave(Fail(UnexpectedEndDocument, p.(pos := i, nodeCount := n)))
        else
          var e := if t.kind == StartElement then p.elemCount + 1 else p.elemCount;
          var q := Progress(i, n, e, Some(t.kind), p.tracked);
          if cfg.filter.Some? && !cfg.filter.value(t) then
            var q' := if t.kind == StartElement && cfg.tracking == AllSiblings
                      then q.(tracked := Some(Snapshot(cfg, t, q, q.tracked))) else q;
            if t.kind == StartElement && !cfg.flattening then
              match SkipSubtree(tokens, i, cfg.base)
              case Drained(j) => Again(q'.(pos := j))
              case DrainFailed(err, j) => Leave(Fail(err, q'.(pos := j)))
            else Again(q')
          else if t.kind == StartElement && cfg.tracking != NoTracking then
            Leave(Yield(q.(tracked := Some(Snapshot(cfg, t, q, if cfg.tracking == Parents then None else q.tracked)))))
          else Leave(Yield(q))
  }

  /** The ways one pass of the loop body leaves the loop before it looks at the filter. */
  lemma LoopBodyEarlyExits(cfg: Config, check: EndCheck, tokens: seq<Token>, p: Progress)
    requires p.pos < |tokens|
    ensures p.pos + 1 >= |tokens| ==>
      LoopBody(cfg, check, tokens, p) == Leave(if cfg.base == 0 then Close(p.(currEvent := None)) else Fail(NoMoreEvents, p))
    ensures p.pos + 1 < |tokens| && cfg.base == 0 && tokens[p.pos + 1].kind == EndDocument ==>
      LoopBody(cfg, check, tokens, p) == Leave(Close(p.(pos := p.pos + 1, currEvent := None)))
    ensures p.pos + 1 < |tokens| && !(cfg.base == 0 && tokens[p.pos + 1].kind == EndDocument) ==>
      var t := tokens[p.pos + 1];
      && (t.kind == EndElement && (!cfg.flattening || ClosesScope(check, t.depth, cfg.base)) ==>
            LoopBody(cfg, check, tokens, p) == Leave(Close(p.(pos := p.pos + 1, nodeCount := p.nodeCount + 1, currEvent := None))))
      && (!(t.kind == EndElement && (!cfg.flattening || ClosesScope(check, t.depth, cfg.base))) && t.kind == EndDocument ==>
            LoopBody(cfg, check, tokens, p) == Leave(Fail(UnexpectedEndDocument, p.(pos := p.pos + 1, nodeCount := p.nodeCount + 1))))
  {
  }

  /** The loop of getNext: run the body until it leaves. */
  function Loop(cfg: Config, check: EndCheck, tokens: seq<Token>, p: Progress): (o: LoopOutcome)
    requires p.pos < |tokens|
    ensures p.pos <= o.p.pos < |tokens|
    ensures p.nodeCount <= o.p.nodeCount && p.elemCount <= o.p.elemCount
    ensures o.Yield? ==>
      && p.pos < o.p.pos
      && o.p.currEvent == Some(tokens[o.p.pos].kind)
      && Returnable(cfg, check, tokens[o.p.pos])
    ensures o.Close? ==> o.p.currEvent.None? && ClosesAt(cfg, check, tokens, o.p.pos)
    decreases |tokens| - p.pos
  {
    match LoopBody(cfg, check, tokens, p)
    case Again(q) => Loop(cfg, check, tokens, q)
    case Leave(o) => o
  }

  // ---------------------------------------------------------------------
  // One getNext call
  // ---------------------------------------------------------------------

  /** Why getNext failed: the stream, or a HAS_CHILD cursor whose child reference is gone. */
  datatype AdvanceError = Read(err: ReadError) | NoChildCursor

  /** The cursor fields getNext reads and writes; `childBase` is the open child's base depth. */
  datatype CursorView = CursorView(state: State, progress: Progress, childBase: Option<int>)

  datatype Step = Step(result: Result<Option<EventKind>, AdvanceError>, view: CursorView)

  /**
   * The first half of getNext: drain past the open child, or skip the
   * subtree of the START_ELEMENT a nested cursor is on, or stay put.
   */
  function Resync(cfg: Config, tokens: seq<Token>, v: CursorView): (r: Drain)
    requires v.progress.pos < |tokens| && (v.state == HasChild ==> v.childBase.Some?)
    ensures v.progress.pos <= r.at < |tokens|
  {
    var p := v.progress;
    if v.state == HasChild then DrainTo(tokens, p.pos, v.childBase.value)
    else if v.state == Active && !cfg.flattening && p.currEvent == Some(StartElement) then SkipSubtree(tokens, p.pos, cfg.base)
    else Drained(p.pos)
  }

  /**
   * getNext: nothing on a closed cursor; otherwise first resynchronise (drain
   * past the open child, or skip the subtree of the START_ELEMENT a nested
   * cursor is on), then run the loop with the given end check.
   */
  function GetNextSpec(cfg: Config, check: EndCheck, tokens: seq<Token>, v: CursorView): (s: Step)
    requires v.progress.pos < |tokens|
    ensures s.view.progress.pos < |tokens|
    ensures v.state == Closed ==> s == Step(Ok(None), v)
    ensures s.result == Ok(None) ==> s.view.state == Closed
    ensures v.state != Closed && s.result == Ok(None) ==> s.view.progress.currEvent.None?
    ensures v.progress.pos <= s.view.progress.pos
    ensures s.result.Ok? && s.result.value.Some? ==> v.progress.pos < s.view.progress.pos
    ensures s.result.Ok? && s.result.value.Some? ==>
      && s.view.state == Active && s.view.childBase.None?
      && s.result.value == s.view.progress.currEvent == Some(tokens[s.view.progress.pos].kind)
      && Returnable(cfg, check, tokens[s.view.progress.pos])
  {
    var p := v.progress;
    if v.state == Closed then Step(Ok(None), v)
    else if v.state == HasChild && v.childBase.None? then Step(Err(NoChildCursor), v)
    else
      match Resync(cfg, tokens, v)
      case DrainFailed(err, j) => Step(Err(Read(err)), CursorView(v.state, p.(pos := j), None))
      case Drained(j) =>
        match Loop(cfg, check, tokens, p.(pos := j))
        case Yield(q) => Step(Ok(q.currEvent), CursorView(Active, q, None))
        case Close(q) => Step(Ok(None), CursorView(Closed, q, None))
        case Fail(err, q) => Step(Err(Read(err)), CursorView(Active, q, None))
  }

  /** A nested cursor never returns END_ELEMENT or END_DOCUMENT. */
  lemma HierarchicNeverYieldsEnd(cfg: Config, check: EndCheck, tokens: seq<Token>, v: CursorView)
    requires v.progress.pos < |tokens| && !cfg.flattening
    ensures GetNextSpec(cfg, check, tokens, v).result != Ok(Some(EndElement))
    ensures GetNextSpec(cfg, check, tokens, v).result != Ok(Some(EndDocument))
  {
  }

  // ---------------------------------------------------------------------
  // Behaviour on a well-formed stream
  // ---------------------------------------------------------------------

  /** A token a nested cursor of base depth `base` may stop on: a child element or other child content. */
  predicate DirectChild(t: Token, base: int)
  {
    if t.kind == StartElement then t.depth == base + 1
    else t.kind != EndElement && t.kind != EndDocument && t.kind != StartDocument && t.depth == base
  }

  /**
   * What a cursor's loop may end with on a well-formed stream: never a
   * failure; for a nested cursor a direct child, for a flattening cursor an
   * event inside its scope that is not its closing END_ELEMENT; and closing
   * at the END_ELEMENT of its own depth (at the end of the document for the
   * root cursor).
   */
  predicate GoodOutcome(cfg: Config, tokens: seq<Token>, o: LoopOutcome)
  {
    && o.p.pos < |tokens|
    && !o.Fail?
    && (o.Yield? && !cfg.flattening ==> DirectChild(tokens[o.p.pos], cfg.base))
    && (o.Yield? && cfg.flattening ==>
          && InnerAfter(tokens[o.p.pos]) >= cfg.base
          && ParentCountOn(true, cfg.base, tokens[o.p.pos]) >= cfg.base
          && (tokens[o.p.pos].kind == EndElement ==> tokens[o.p.pos].depth > cfg.base))
    && (o.Close? ==>
          && (cfg.base > 0 ==> tokens[o.p.pos].kind == EndElement && tokens[o.p.pos].depth == cfg.base)
          && (cfg.base == 0 ==> o.p.pos == |tokens| - 1))
  }

  /** Where the loop of a cursor starts on a well-formed stream: after a sibling (nested) or inside the scope (flattening). */
  predicate LoopStart(cfg: Config, tokens: seq<Token>, pos: nat)
    requires pos < |tokens|
  {
    if cfg.flattening then InnerAfter(tokens[pos]) >= cfg.base else InnerAfter(tokens[pos]) == cfg.base
  }

  /** One pass of the loop body keeps a cursor inside its scope, or leaves the loop well. */
  lemma LoopBodyOnWellFormed(cfg: Config, tokens: seq<Token>, p: Progress)
    requires WellFormed(tokens) && p.pos < |tokens| && LoopStart(cfg, tokens, p.pos)
    ensures var r := LoopBody(cfg, DepthAtMostBase, tokens, p);
      && (r.Again? ==> LoopStart(cfg, tokens, r.p.pos))
      && (r.Leave? ==> GoodOutcome(cfg, tokens, r.o))
  {
    if p.pos + 1 < |tokens| {
      var i := p.pos + 1;
      var t := tokens[i];
      assert StepAt(tokens, i);
      assert StepAt(tokens, |tokens| - 1);
      if t.kind == StartElement && !cfg.flattening {
        DrainFromInside(tokens, i + 1, cfg.base + 1);
      }
      LoopBodyNext(cfg, tokens, p);
    } else {
      assert StepAt(tokens, p.pos);
    }
  }

  /**
   * LoopBodyOnWellFormed when there is a next token, from the facts about
   * that token a well-formed stream gives: its depth fits the token before
   * it, it is END_DOCUMENT exactly when it is the last, and the subtree of
   * a START_ELEMENT ends.
   */
  lemma LoopBodyNext(cfg: Config, tokens: seq<Token>, p: Progress)
    requires p.pos + 1 < |tokens| && LoopStart(cfg, tokens, p.pos)
    requires StepOk(tokens[p.pos], tokens[p.pos + 1]) && tokens[p.pos + 1].kind != StartDocument
    requires tokens[p.pos + 1].kind == EndDocument <==> p.pos + 1 == |tokens| - 1
    requires tokens[p.pos + 1].kind == StartElement && !cfg.flattening ==>
               p.pos + 2 < |tokens| && DrainTo(tokens, p.pos + 2, cfg.base + 1).Drained?
    ensures var r := LoopBody(cfg, DepthAtMostBase, tokens, p);
      && (r.Again? ==> LoopStart(cfg, tokens, r.p.pos))
      && (r.Leave? ==> GoodOutcome(cfg, tokens, r.o))
  {
    LoopBodyStep(cfg, DepthAtMostBase, tokens, p);
  }

  /**
   * Where one pass of the loop body leaves the stream when there is a next
   * token: on that token, or past the subtree a nested cursor skips.
   */
  lemma LoopBodyStep(cfg: Config, check: EndCheck, tokens: seq<Token>, p: Progress)
    requires p.pos + 1 < |tokens|
    ensures var r, i, t := LoopBody(cfg, check, tokens, p), p.pos + 1, tokens[p.pos + 1];
      && (r.Again? ==>
            if t.kind == StartElement && !cfg.flattening then SkipSubtree(tokens, i, cfg.base) == Drained(r.p.pos)
            else r.p.pos == i)
      && (r.Leave? && r.o.Fail? ==>
            t.kind == EndDocument || (t.kind == StartElement && !cfg.flattening && SkipSubtree(tokens, i, cfg.base).DrainFailed?))
      && (r.Leave? && !r.o.Fail? ==> r.o.p.pos == i)
  {
  }

  /**
   * On a well-formed stream, the loop of a cursor that starts inside its
   * scope never fails and ends as GoodOutcome says.
   */
  lemma {:induction false} LoopOnWellFormed(cfg: Config, tokens: seq<Token>, p: Progress)
    requires WellFormed(tokens) && p.pos < |tokens| && LoopStart(cfg, tokens, p.pos)
    ensures GoodOutcome(cfg, tokens, Loop(cfg, DepthAtMostBase, tokens, p))
    decreases |tokens| - p.pos
  {
    LoopBodyOnWellFormed(cfg, tokens, p);
    match LoopBody(cfg, DepthAtMostBase, tokens, p)
    case Again(q) => LoopOnWellFormed(cfg, tokens, q);
    case Leave(o) =>
  }

  /**
   * Where a cursor's stream position must be for getNext to find the next
   * event of its scope: right after a sibling (nested) or anywhere inside
   * the scope (flattening); on the START_ELEMENT it just returned (nested);
   * or, with a child cursor open, anywhere inside the child's element,
   * which starts one level below this cursor's events.
   */
  predicate Synced(cfg: Config, tokens: seq<Token>, v: CursorView)
    requires v.progress.pos < |tokens|
  {
    var t := tokens[v.progress.pos];
    match v.state
    case Closed => true
    case HasChild =>
      && v.childBase.Some?
      && (if cfg.flattening then v.childBase.value > cfg.base else v.childBase.value == cfg.base + 1)
      && t.depth >= v.childBase.value
    case _ =>
      && v.childBase.None?
      && (v.state == Active ==> v.progress.currEvent == Some(t.kind))
      && (if cfg.flattening
          then InnerAfter(t) >= cfg.base && (v.state == Active && t.kind == StartElement ==> t.depth > cfg.base)
          else if v.state == Active && v.progress.currEvent == Some(StartElement)
          then t.kind == StartElement && t.depth == cfg.base + 1
          else InnerAfter(t) == cfg.base)
  }

  /** The configuration of a cursor opened on START_ELEMENT `t` by a parent with configuration `cfg` and tracked element `tracked`. */
  function ChildConfig(cfg: Config, tracked: Option<ElementInfo>, flattening: bool, filter: Option<Filter>, t: Token): Config
  {
    Config(flattening, t.depth, filter, cfg.tracking, cfg.factory, tracked)
  }

  /**
   * Opening a child or descendant cursor on the START_ELEMENT a synchronised
   * cursor is on leaves the parent synchronised with an open child, and the
   * new cursor synchronised in its initial state.
   */
  lemma OpenChildSynced(cfg: Config, tokens: seq<Token>, v: CursorView, flattening: bool, filter: Option<Filter>)
    requires v.progress.pos < |tokens| && Synced(cfg, tokens, v)
    requires v.state == Active && v.progress.currEvent == Some(StartElement)
    ensures var t := tokens[v.progress.pos];
      && Synced(cfg, tokens, CursorView(HasChild, v.progress, Some(t.depth)))
      && Synced(ChildConfig(cfg, v.progress.tracked, flattening, filter, t), tokens,
                CursorView(Initial, Progress(v.progress.pos, 0, 0, None, None), None))
  {
  }

  /**
   * On a well-formed stream, getNext on a synchronised cursor never fails,
   * and the cursor it leaves is synchronised again: a nested cursor returns
   * only its direct children and closes at its own END_ELEMENT, and a
   * flattening cursor never returns the END_ELEMENT that closes its scope.
   */
  lemma GetNextOnWellFormed(cfg: Config, tokens: seq<Token>, v: CursorView)
    requires WellFormed(tokens) && v.progress.pos < |tokens|
    requires Synced(cfg, tokens, v)
    ensures var s := GetNextSpec(cfg, DepthAtMostBase, tokens, v);
      s.result.Ok? && Synced(cfg, tokens, s.view)
    ensures var s := GetNextSpec(cfg, DepthAtMostBase, tokens, v);
      s.result.Ok? && s.result.value.Some? ==>
        var t := tokens[s.view.progress.pos];
        && (!cfg.flattening ==> DirectChild(t, cfg.base))
        && (cfg.flattening ==> ParentCountOn(true, cfg.base, t) >= cfg.base
                               && (t.kind == EndElement ==> t.depth > cfg.base))
    ensures var s := GetNextSpec(cfg, DepthAtMostBase, tokens, v);
      v.state != Closed && s.view.state == Closed && cfg.base > 0 ==>
        tokens[s.view.progress.pos].kind == EndElement && tokens[s.view.progress.pos].depth == cfg.base
  {
    var p := v.progress;
    if v.state != Closed {
      if v.state == HasChild {
        DrainFromToken(tokens, p.pos, v.childBase.value);
      } else if v.state == Active && !cfg.flattening && p.currEvent == Some(StartElement) {
        assert StepAt(tokens, |tokens| - 1);
        assert p.pos + 1 < |tokens|;
        DrainFromInside(tokens, p.pos + 1, cfg.base + 1);
      }
      var j := Resync(cfg, tokens, v).at;
      LoopOnWellFormed(cfg, tokens, p.(pos := j));
      GetNextGood(cfg, tokens, v, j);
    }
  }

  /**
   * GetNextOnWellFormed once the resynchronisation has reached `j` and the
   * loop from there is known to end well.
   */
  lemma GetNextGood(cfg: Config, tokens: seq<Token>, v: CursorView, j: nat)
    requires v.progress.pos < |tokens| && Synced(cfg, tokens, v) && v.state != Closed
    requires Resync(cfg, tokens, v) == Drained(j)
    requires GoodOutcome(cfg, tokens, Loop(cfg, DepthAtMostBase, tokens, v.progress.(pos := j)))
    ensures var s := GetNextSpec(cfg, DepthAtMostBase, tokens, v);
      s.result.Ok? && Synced(cfg, tokens, s.view)
    ensures var s := GetNextSpec(cfg, DepthAtMostBase, tokens, v);
      s.result.Ok? && s.result.value.Some? ==>
        var t := tokens[s.view.progress.pos];
        && (!cfg.flattening ==> DirectChild(t, cfg.base))
        && (cfg.flattening ==> ParentCountOn(true, cfg.base, t) >= cfg.base
                               && (t.kind == EndElement ==> t.depth > cfg.base))
    ensures var s := GetNextSpec(cfg, DepthAtMostBase, tokens, v);
      s.view.state == Closed && cfg.base > 0 ==>
        tokens[s.view.progress.pos].kind == EndElement && tokens[s.view.progress.pos].depth == cfg.base
  {
  }

  // ---------------------------------------------------------------------
  // The end check of the flattening cursor
  // ---------------------------------------------------------------------

  /** A document holding one empty root element. */
  function EmptyRootDocument(): seq<Token>
  {
    [ Token(StartDocument, 0, None, None, None, "", []),
      Token(StartElement, 1, Some("root"), None, None, "", []),
      Token(EndElement, 1, Some("root"), None, None, "", []),
      Token(EndDocument, 0, None, None, None, "", []) ]
  }

  /**
   * With the end check as written (an END_ELEMENT closes the scope only when
   * its depth is below the base depth), a flattening cursor opened on the
   * root element returns the root's own END_ELEMENT, and the call after
   * that fails on END_DOCUMENT; with "at most the base depth" the same
   * cursor closes at once.
   */
  lemma FlatteningAsWrittenReturnsClosingEnd()
    ensures WellFormed(EmptyRootDocument())
    ensures
      var tokens := EmptyRootDocument();
      var cfg := Config(true, 1, None, NoTracking, None, None);
      var v := CursorView(Initial, Progress(1, 0, 0, None, None), None);
      var s := GetNextSpec(cfg, DepthBelowBase, tokens, v);
      && Synced(cfg, tokens, v)
      && s.result == Ok(Some(EndElement))
      && tokens[s.view.progress.pos].depth == cfg.base
      && GetNextSpec(cfg, DepthBelowBase, tokens, s.view).result == Err(Read(UnexpectedEndDocument))
      && GetNextSpec(cfg, DepthAtMostBase, tokens, v).result == Ok(None)
  {
    var tokens := EmptyRootDocument();
    assert StepAt(tokens, 1) && StepAt(tokens, 2) && StepAt(tokens, 3);
    var cfg := Config(true, 1, None, NoTracking, None, None);
    var p := Progress(1, 0, 0, None, None);
    var q := Progress(2, 1, 0, Some(EndElement), None);
    assert LoopBody(cfg, DepthBelowBase, tokens, p) == Leave(Yield(q));
    assert LoopBody(cfg, DepthBelowBase, tokens, q) == Leave(Fail(UnexpectedEndDocument, q.(pos := 3, nodeCount := 2)));
    assert LoopBody(cfg, DepthAtMostBase, tokens, p) == Leave(Close(q.(currEvent := None)));
  }

  /** A root element holding two empty elements: <root><a/><b/></root>. */
  function SiblingsDocument(): seq<Token>
  {
    [ Token(StartDocument, 0, None, None, None, "", []),
      Token(StartElement, 1, Some("root"), None, None, "", []),
      Token(StartElement, 2, Some("a"), None, None, "", []),
      Token(EndElement, 2, Some("a"), None, None, "", []),
      Token(StartElement, 2, Some("b"), None, None, "", []),
      Token(EndElement, 2, Some("b"), None, None, "", []),
      Token(EndElement, 1, Some("root"), None, None, "", []),
      Token(EndDocument, 0, None, None, None, "", []) ]
  }

  /**
   * With the end check as written, a descendant cursor opened on a nested
   * element does not stop at that element's END_ELEMENT: it returns it, and
   * the next call returns the START_ELEMENT of the following sibling, which
   * belongs to the parent's scope. With "at most the base depth" the cursor
   * closes on that END_ELEMENT.
   */
  lemma FlatteningAsWrittenReadsPastScope()
    ensures WellFormed(SiblingsDocument())
    ensures
      var tokens := SiblingsDocument();
      var cfg := Config(true, 2, None, NoTracking, None, None);
      var v := CursorView(Initial, Progress(2, 0, 0, None, None), None);
      var s := GetNextSpec(cfg, DepthBelowBase, tokens, v);
      var s2 := GetNextSpec(cfg, DepthBelowBase, tokens, s.view);
      && Synced(cfg, tokens, v)
      && s.result == Ok(Some(EndElement)) && s.view.progress.pos == 3
      && s2.result == Ok(Some(StartElement)) && s2.view.progress.pos == 4
      && tokens[s2.view.progress.pos].name == Some("b")
      && GetNextSpec(cfg, DepthAtMostBase, tokens, v).result == Ok(None)
      && GetNextSpec(cfg, DepthAtMostBase, tokens, v).view.progress.pos == 3
  {
    var tokens := SiblingsDocument();
    assert StepAt(tokens, 1) && StepAt(tokens, 2) && StepAt(tokens, 3) && StepAt(tokens, 4);
    assert StepAt(tokens, 5) && StepAt(tokens, 6) && StepAt(tokens, 7);
    var cfg := Config(true, 2, None, NoTracking, None, None);
    var p := Progress(2, 0, 0, None, None);
    var q := Progress(3, 1, 0, Some(EndElement), None);
    assert LoopBody(cfg, DepthBelowBase, tokens, p) == Leave(Yield(q));
    assert LoopBody(cfg, DepthBelowBase, tokens, q) == Leave(Yield(Progress(4, 2, 1, Some(StartElement), None)));
    assert LoopBody(cfg, DepthAtMostBase, tokens, p) == Leave(Close(q.(currEvent := None)));
  }

  // ---------------------------------------------------------------------
  // Parent counts
  // ---------------------------------------------------------------------

  /**
   * On a well-formed stream every START_ELEMENT has a matching END_ELEMENT:
   * the first later END_ELEMENT of the same depth, with only deeper
   * END_ELEMENTs between them. A flattening cursor reports the same parent
   * count on both.
   */
  lemma MatchingEndElement(tokens: seq<Token>, i: nat, base: int) returns (j: nat)
    requires WellFormed(tokens) && i < |tokens| && tokens[i].kind == StartElement
    ensures i < j < |tokens| && tokens[j].kind == EndElement && tokens[j].depth == tokens[i].depth
    ensures forall k :: i < k < j && tokens[k].kind == EndElement ==> tokens[k].depth > tokens[i].depth
    ensures ParentCountOn(true, base, tokens[i]) == ParentCountOn(true, base, tokens[j])
  {
    assert StepAt(tokens, |tokens| - 1);
    assert i + 1 < |tokens|;
    assert i > 0 by {
      if i == 0 {
        assert tokens[0].kind == StartDocument;
      }
    }
    assert StepAt(tokens, i);
    WellFormedDepths(tokens, i);
    DrainFromInside(tokens, i + 1, tokens[i].depth);
    j := DrainTo(tokens, i + 1, tokens[i].depth).at;
  }

  // ---------------------------------------------------------------------
  // collectDescendantText
  // ---------------------------------------------------------------------

  /** The events a text-only filter accepts: character data, CDATA, and ignorable white space if asked for. */
  predicate IsText(includeIgnorable: bool, t: Token)
  {
    t.kind == Characters || t.kind == CData || (includeIgnorable && t.kind == Space)
  }

  function TextOnly(includeIgnorable: bool): Filter
  {
    t => IsText(includeIgnorable, t)
  }

  /** The text of the text events of `ts`, in order. */
  function TextOf(ts: seq<Token>, includeIgnorable: bool): string
  {
    if |ts| == 0 then ""
    else (if IsText(includeIgnorable, ts[0]) then ts[0].text else "") + TextOf(ts[1..], includeIgnorable)
  }

  lemma TextOfFront(ts: seq<Token>, a: nat, j: nat, includeIgnorable: bool)
    requires a < j <= |ts|
    ensures TextOf(ts[a..j], includeIgnorable)
      == (if IsText(includeIgnorable, ts[a]) then ts[a].text else "") + TextOf(ts[a + 1..j], includeIgnorable)
  {
    assert ts[a..j][1..] == ts[a + 1..j];
  }

  /** What collecting text yields: the text or the failure, and the fields of the descendant cursor at the end. */
  datatype Collected = Collected(text: Result<string, ReadError>, p: Progress)

  /**
   * Repeated getNext calls on a flattening cursor, appending the text of
   * each event returned to `acc`, until the cursor closes or fails.
   */
  function CollectText(cfg: Config, tokens: seq<Token>, p: Progress, acc: string): (c: Collected)
    requires p.pos < |tokens|
    decreases |tokens| - p.pos
  {
    match Loop(cfg, DepthAtMostBase, tokens, p)
    case Yield(q) => CollectText(cfg, tokens, q, acc + tokens[q.pos].text)
    case Close(q) => Collected(Ok(acc), q)
    case Fail(err, q) => Collected(Err(err), q)
  }

  /** A drain that reaches index j from a reaches it from every index in between. */
  lemma {:induction false} DrainToSuffix(tokens: seq<Token>, a: nat, k: nat, j: nat, d: int)
    requires a <= k <= j < |tokens| && DrainTo(tokens, a, d) == Drained(j)
    ensures DrainTo(tokens, k, d) == Drained(j)
    decreases k - a
  {
    if a < k {
      assert DrainTo(tokens, a, d) == DrainTo(tokens, a + 1, d);
      DrainToSuffix(tokens, a + 1, k, j, d);
    }
  }

  /** The facts about a text-collecting descendant cursor that hold before every call. */
  ghost predicate CollectingInside(cfg: Config, tokens: seq<Token>, includeIgnorable: bool, pos: nat, j: nat)
  {
    && cfg.flattening && cfg.base >= 1
    && cfg.filter == Some(TextOnly(includeIgnorable))
    && pos < j < |tokens|
    && DrainTo(tokens, pos + 1, cfg.base) == Drained(j)
  }

  /** What one pass does for a text-collecting flattening cursor, in terms of the next token only. */
  ghost predicate TextRound(cfg: Config, tokens: seq<Token>, includeIgnorable: bool, p: Progress, r: Round)
    requires p.pos + 1 < |tokens|
  {
    var t := tokens[p.pos + 1];
    if t.kind == EndElement && t.depth <= cfg.base then r.Leave? && r.o.Close? && r.o.p.pos == p.pos + 1
    else if IsText(includeIgnorable, t) then r.Leave? && r.o.Yield? && r.o.p.pos == p.pos + 1
    else r.Again? && r.p.pos == p.pos + 1
  }

  /** One pass inside the scope either moves past a non-text token or returns what TextStep says. */
  lemma RoundText(cfg: Config, tokens: seq<Token>, includeIgnorable: bool, p: Progress, r: Round, j: nat)
    requires CollectingInside(cfg, tokens, includeIgnorable, p.pos, j)
    requires TextRound(cfg, tokens, includeIgnorable, p, r)
    ensures r.Again? ==>
      && r.p.pos == p.pos + 1 && CollectingInside(cfg, tokens, includeIgnorable, r.p.pos, j)
      && TextOf(tokens[p.pos + 1..j], includeIgnorable) == TextOf(tokens[r.p.pos + 1..j], includeIgnorable)
    ensures r.Leave? ==> TextStep(cfg, tokens, includeIgnorable, p.pos, r.o, j)
    ensures r.Leave? && r.o.Close? ==> r.o.p.pos == j
  {
    var t := tokens[p.pos + 1];
    assert t.kind != EndDocument;
    if t.kind == EndElement && t.depth <= cfg.base {
      TextClose(cfg, tokens, includeIgnorable, p.pos, r.o, j);
    } else if IsText(includeIgnorable, t) {
      TextYield(cfg, tokens, includeIgnorable, p.pos, r.o, j);
    } else {
      TextPastToken(cfg, tokens, includeIgnorable, p.pos, j);
    }
  }

  /** The END_ELEMENT that closes the scope is the end of the text: nothing is left to collect. */
  lemma TextClose(cfg: Config, tokens: seq<Token>, includeIgnorable: bool, pos: nat, o: LoopOutcome, j: nat)
    requires CollectingInside(cfg, tokens, includeIgnorable, pos, j) && o.Close? && o.p.pos == pos + 1
    requires tokens[pos + 1].kind == EndElement && tokens[pos + 1].depth <= cfg.base
    ensures TextStep(cfg, tokens, includeIgnorable, pos, o, j) && o.p.pos == j
  {
    assert j == pos + 1 && tokens[pos + 1..j] == [];
  }

  /** A text event inside the scope is returned, and its text comes first. */
  lemma TextYield(cfg: Config, tokens: seq<Token>, includeIgnorable: bool, pos: nat, o: LoopOutcome, j: nat)
    requires CollectingInside(cfg, tokens, includeIgnorable, pos, j) && o.Yield? && o.p.pos == pos + 1
    requires IsText(includeIgnorable, tokens[pos + 1])
    ensures TextStep(cfg, tokens, includeIgnorable, pos, o, j)
  {
    TextPastToken(cfg, tokens, includeIgnorable, pos, j);
  }

  /** Any other token is inside the scope: its text, if any, comes first, and collecting goes on after it. */
  lemma TextPastToken(cfg: Config, tokens: seq<Token>, includeIgnorable: bool, pos: nat, j: nat)
    requires CollectingInside(cfg, tokens, includeIgnorable, pos, j)
    requires !(tokens[pos + 1].kind == EndElement && tokens[pos + 1].depth <= cfg.base)
    requires tokens[pos + 1].kind != EndDocument
    ensures CollectingInside(cfg, tokens, includeIgnorable, pos + 1, j)
    ensures TextOf(tokens[pos + 1..j], includeIgnorable)
      == (if IsText(includeIgnorable, tokens[pos + 1]) then tokens[pos + 1].text else "")
         + TextOf(tokens[pos + 2..j], includeIgnorable)
    ensures !IsText(includeIgnorable, tokens[pos + 1])
      ==> TextOf(tokens[pos + 1..j], includeIgnorable) == TextOf(tokens[pos + 2..j], includeIgnorable)
  {
    var i := pos + 1;
    DrainToSuffix(tokens, i, i + 1, j, cfg.base);
    TextOfFront(tokens, i, j, includeIgnorable);
    if !IsText(includeIgnorable, tokens[i]) {
      assert "" + TextOf(tokens[i + 1..j], includeIgnorable) == TextOf(tokens[i + 1..j], includeIgnorable);
    }
  }

  /** One pass of the loop body of a text-collecting flattening cursor, on a token that is not END_DOCUMENT. */
  lemma TextLoopBody(cfg: Config, tokens: seq<Token>, includeIgnorable: bool, p: Progress)
    requires cfg.flattening && cfg.base >= 1 && cfg.filter == Some(TextOnly(includeIgnorable))
    requires p.pos + 1 < |tokens| && tokens[p.pos + 1].kind != EndDocument
    ensures TextRound(cfg, tokens, includeIgnorable, p, LoopBody(cfg, DepthAtMostBase, tokens, p))
  {
  }

  /**
   * One getNext call of a text-collecting descendant cursor, seen from
   * position `pos`: it returns the first text event before the scope's
   * END_ELEMENT at `j`, or closes when there is none.
   */
  ghost predicate TextStep(cfg: Config, tokens: seq<Token>, includeIgnorable: bool, pos: nat, o: LoopOutcome, j: nat)
    requires pos < j <= |tokens|
  {
    || (o.Yield? && CollectingInside(cfg, tokens, includeIgnorable, o.p.pos, j)
        && TextOf(tokens[pos + 1..j], includeIgnorable)
           == tokens[o.p.pos].text + TextOf(tokens[o.p.pos + 1..j], includeIgnorable))
    || (o.Close? && TextOf(tokens[pos + 1..j], includeIgnorable) == "")
  }

  lemma {:induction false} LoopText(cfg: Config, tokens: seq<Token>, includeIgnorable: bool, p: Progress, j: nat)
    requires CollectingInside(cfg, tokens, includeIgnorable, p.pos, j)
    ensures TextStep(cfg, tokens, includeIgnorable, p.pos, Loop(cfg, DepthAtMostBase, tokens, p), j)
    decreases |tokens| - p.pos
  {
    assert tokens[p.pos + 1].kind != EndDocument;
    TextLoopBody(cfg, tokens, includeIgnorable, p);
    RoundText(cfg, tokens, includeIgnorable, p, LoopBody(cfg, DepthAtMostBase, tokens, p), j);
    match LoopBody(cfg, DepthAtMostBase, tokens, p)
    case Again(q) =>
      assert Loop(cfg, DepthAtMostBase, tokens, p) == Loop(cfg, DepthAtMostBase, tokens, q);
      LoopText(cfg, tokens, includeIgnorable, q, j);
      TextStepShift(cfg, tokens, includeIgnorable, p.pos, q.pos, Loop(cfg, DepthAtMostBase, tokens, q), j);
    case Leave(o) =>
      assert Loop(cfg, DepthAtMostBase, tokens, p) == o;
  }

  /** A text-collecting descendant cursor that closes does so on the scope's END_ELEMENT at `j`. */
  lemma {:induction false} LoopClosesAtEnd(cfg: Config, tokens: seq<Token>, includeIgnorable: bool, p: Progress, j: nat)
    requires CollectingInside(cfg, tokens, includeIgnorable, p.pos, j)
    ensures Loop(cfg, DepthAtMostBase, tokens, p).Close? ==> Loop(cfg, DepthAtMostBase, tokens, p).p.pos == j
    decreases |tokens| - p.pos
  {
    assert tokens[p.pos + 1].kind != EndDocument;
    TextLoopBody(cfg, tokens, includeIgnorable, p);
    RoundText(cfg, tokens, includeIgnorable, p, LoopBody(cfg, DepthAtMostBase, tokens, p), j);
    match LoopBody(cfg, DepthAtMostBase, tokens, p)
    case Again(q) =>
      LoopAgain(cfg, DepthAtMostBase, tokens, p, q);
      LoopClosesAtEnd(cfg, tokens, includeIgnorable, q, j);
    case Leave(o) =>
      assert Loop(cfg, DepthAtMostBase, tokens, p) == o;
  }

  /** A pass that goes round again leaves the loop's outcome to the next pass. */
  lemma LoopAgain(cfg: Config, check: EndCheck, tokens: seq<Token>, p: Progress, q: Progress)
    requires p.pos < |tokens| && LoopBody(cfg, check, tokens, p) == Again(q)
    ensures Loop(cfg, check, tokens, p) == Loop(cfg, check, tokens, q)
  {
  }

  /** A step seen from `b` is seen the same from an earlier `a` when nothing between them is text. */
  lemma TextStepShift(cfg: Config, tokens: seq<Token>, includeIgnorable: bool, a: nat, b: nat, o: LoopOutcome, j: nat)
    requires a < j <= |tokens| && b < j
    requires TextOf(tokens[a + 1..j], includeIgnorable) == TextOf(tokens[b + 1..j], includeIgnorable)
    requires TextStep(cfg, tokens, includeIgnorable, b, o, j)
    ensures TextStep(cfg, tokens, includeIgnorable, a, o, j)
  {
  }

  /**
   * One step of CollectText inside the scope: a returned event appends its
   * text and leaves the rest of the scope's text to collect; a close means
   * there was none left.
   */
  lemma CollectTextStep(cfg: Config, tokens: seq<Token>, includeIgnorable: bool, p: Progress, acc: string, j: nat)
    returns (o: LoopOutcome)
    requires CollectingInside(cfg, tokens, includeIgnorable, p.pos, j)
    ensures o.Yield? || o.Close?
    ensures o.Close? ==> o.p.pos == j
    ensures o.Yield? ==>
      && p.pos < o.p.pos && CollectingInside(cfg, tokens, includeIgnorable, o.p.pos, j)
      && TextOf(tokens[p.pos + 1..j], includeIgnorable) == tokens[o.p.pos].text + TextOf(tokens[o.p.pos + 1..j], includeIgnorable)
      && CollectText(cfg, tokens, p, acc) == CollectText(cfg, tokens, o.p, acc + tokens[o.p.pos].text)
    ensures o.Close? ==>
      && TextOf(tokens[p.pos + 1..j], includeIgnorable) == ""
      && CollectText(cfg, tokens, p, acc).text == Ok(acc) && CollectText(cfg, tokens, p, acc).p.pos == j
  {
    LoopText(cfg, tokens, includeIgnorable, p, j);
    LoopClosesAtEnd(cfg, tokens, includeIgnorable, p, j);
    o := Loop(cfg, DepthAtMostBase, tokens, p);
    CollectTextOnce(cfg, tokens, p, acc);
  }

  /** CollectText after one getNext call: go on from the event returned, or stop at a close. */
  lemma CollectTextOnce(cfg: Config, tokens: seq<Token>, p: Progress, acc: string)
    requires p.pos < |tokens|
    ensures var o := Loop(cfg, DepthAtMostBase, tokens, p);
      && (o.Yield? ==> CollectText(cfg, tokens, p, acc) == CollectText(cfg, tokens, o.p, acc + tokens[o.p.pos].text))
      && (o.Close? ==> CollectText(cfg, tokens, p, acc) == Collected(Ok(acc), o.p))
  {
  }

  /** Text collected after `text` was appended to `acc` is `acc` followed by `text` and the rest. */
  lemma AppendCollected(x: Collected, y: Collected, acc: string, text: string, rest: string, whole: string)
    requires x == y && y.text == Ok(acc + text + rest) && whole == text + rest
    ensures x.text == Ok(acc + whole)
  {
    ConcatAssoc(acc, text, rest);
  }

  lemma {:induction false} CollectTextFrom(cfg: Config, tokens: seq<Token>, includeIgnorable: bool, p: Progress, acc: string, j: nat)
    requires CollectingInside(cfg, tokens, includeIgnorable, p.pos, j)
    ensures CollectText(cfg, tokens, p, acc).text == Ok(acc + TextOf(tokens[p.pos + 1..j], includeIgnorable))
    ensures CollectText(cfg, tokens, p, acc).p.pos == j
    decreases j - p.pos, 1
  {
    var o := CollectTextStep(cfg, tokens, includeIgnorable, p, acc, j);
    if o.Yield? {
      CollectTextAfter(cfg, tokens, includeIgnorable, p, o.p, acc, j);
    } else {
      assert acc + "" == acc;
    }
  }

  /** CollectTextFrom once the first text event, at `q.pos`, is known. */
  lemma {:induction false} CollectTextAfter(cfg: Config, tokens: seq<Token>, includeIgnorable: bool, p: Progress, q: Progress, acc: string, j: nat)
    requires p.pos < q.pos && CollectingInside(cfg, tokens, includeIgnorable, q.pos, j)
    requires TextOf(tokens[p.pos + 1..j], includeIgnorable) == tokens[q.pos].text + TextOf(tokens[q.pos + 1..j], includeIgnorable)
    requires CollectText(cfg, tokens, p, acc) == CollectText(cfg, tokens, q, acc + tokens[q.pos].text)
    ensures CollectText(cfg, tokens, p, acc).text == Ok(acc + TextOf(tokens[p.pos + 1..j], includeIgnorable))
    ensures CollectText(cfg, tokens, p, acc).p.pos == j
    decreases j - p.pos, 0
  {
    var text := tokens[q.pos].text;
    var rest := TextOf(tokens[q.pos + 1..j], includeIgnorable);
    CollectTextFrom(cfg, tokens, includeIgnorable, q, acc + text, j);
    AppendCollected(CollectText(cfg, tokens, p, acc), CollectText(cfg, tokens, q, acc + text), acc, text, rest,
      TextOf(tokens[p.pos + 1..j], includeIgnorable));
  }

  /**
   * On a well-formed stream, collecting text from a START_ELEMENT yields the
   * text of exactly the text events between it and its matching
   * END_ELEMENT, in document order ("" when there are none), and leaves
   * the stream on that END_ELEMENT.
   */
  lemma CollectTextOnWellFormed(cfg: Config, tokens: seq<Token>, includeIgnorable: bool, p: Progress)
    requires WellFormed(tokens) && p.pos < |tokens| && tokens[p.pos].kind == StartElement
    requires cfg.flattening && cfg.base == tokens[p.pos].depth && cfg.filter == Some(TextOnly(includeIgnorable))
    ensures p.pos + 1 < |tokens|
    ensures DrainTo(tokens, p.pos + 1, cfg.base).Drained?
    ensures CollectText(cfg, tokens, p, "").text
         == Ok(TextOf(tokens[p.pos + 1..DrainTo(tokens, p.pos + 1, cfg.base).at], includeIgnorable))
    ensures CollectText(cfg, tokens, p, "").p.pos == DrainTo(tokens, p.pos + 1, cfg.base).at
  {
    var j := MatchingEndElement(tokens, p.pos, cfg.base);
    WellFormedDepths(tokens, p.pos);
    DrainFromInside(tokens, p.pos + 1, cfg.base);
    var k := DrainTo(tokens, p.pos + 1, cfg.base).at;
    assert CollectingInside(cfg, tokens, includeIgnorable, p.pos, k);
    CollectTextFrom(cfg, tokens, includeIgnorable, p, "", k);
    var text := TextOf(tokens[p.pos + 1..k], includeIgnorable);
    assert "" + text == text;
  }

  /**
   * CollectTextOnWellFormed for the descendant cursor collectDescendantText
   * opens on the START_ELEMENT a synchronised, active cursor is on.
   */
  lemma CollectDescendantOnWellFormed(cfg: Config, tokens: seq<Token>, v: CursorView, includeIgnorable: bool)
    requires v.progress.pos < |tokens|
    ensures WellFormed(tokens) && Synced(cfg, tokens, v) && v.state == Active && v.progress.currEvent == Some(StartElement) ==>
      var pos := v.progress.pos;
      var d := tokens[pos].depth;
      var c := CollectText(ChildConfig(cfg, v.progress.tracked, true, Some(TextOnly(includeIgnorable)), tokens[pos]),
                           tokens, Progress(pos, 0, 0, None, None), "");
      && pos + 1 < |tokens| && DrainTo(tokens, pos + 1, d).Drained?
      && c.p.pos == DrainTo(tokens, pos + 1, d).at
      && c.text == Ok(TextOf(tokens[pos + 1..c.p.pos], includeIgnorable))
  {
    var pos := v.progress.pos;
    if WellFormed(tokens) && Synced(cfg, tokens, v) && v.state == Active && v.progress.currEvent == Some(StartElement) {
      CollectTextOnWellFormed(ChildConfig(cfg, v.progress.tracked, true, Some(TextOnly(includeIgnorable)), tokens[pos]),
        tokens, includeIgnorable, Progress(pos, 0, 0, None, None));
    }
  }
}
