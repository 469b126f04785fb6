/**
 * The StAX token stream the input cursors read, as a sequence of tokens.
 * Depths follow the Stax2 convention of XMLStreamReader2.getDepth(): a
 * START_ELEMENT and its END_ELEMENT report the same depth (the root element
 * has depth 1), and any other token reports the depth of the element that
 * contains it (0 outside the root element).
 */
module XmlTokens {
  import opened Wrappers

  datatype EventKind =
    | StartDocument | EndDocument
    | StartElement | EndElement
    | Characters | CData | Space | Comment
    | ProcessingInstruction | EntityReference | Dtd

  datatype Attribute = Attribute(nsUri: Option<string>, localName: string, value: string)

  /**
   * One event of the stream. `name` is the local name of an element or an
   * entity reference, the target of a processing instruction, or the root
   * name of a DTD; `nsUri` and `prefix` belong to element events; `text`
   * is the textual content; `attrs` are the attributes of a START_ELEMENT.
   */
  datatype Token = Token(
    kind: EventKind, depth: nat,
    name: Option<string>, prefix: Option<string>, nsUri: Option<string>,
    text: string, attrs: seq<Attribute>)

  /** The number of elements open right after the token. */
  function InnerAfter(t: Token): int
  {
    if t.kind == EndElement then t.depth - 1 else t.depth
  }

  /** The depth a token may have right after `prev`. */
  predicate StepOk(prev: Token, t: Token)
  {
    match t.kind
    case StartElement => t.depth == InnerAfter(prev) + 1
    case EndElement => InnerAfter(prev) >= 1 && t.depth == InnerAfter(prev)
    case EndDocument => InnerAfter(prev) == 0 && t.depth == 0
    case _ => t.depth == InnerAfter(prev)
  }

  /**
   * A complete well-formed stream: START_DOCUMENT, then element and other
   * tokens whose depths nest properly, then END_DOCUMENT once every
   * element is closed.
   */
  ghost predicate WellFormed(tokens: seq<Token>)
  {
    |tokens| >= 2
    && tokens[0].kind == StartDocument && tokens[0].depth == 0
    && tokens[|tokens| - 1].kind == EndDocument
    && (forall i :: 0 < i < |tokens| - 1 ==> tokens[i].kind != StartDocument && tokens[i].kind != EndDocument)
    && (forall i :: 0 < i < |tokens| ==> StepAt(tokens, i))
  }

  /** The depth of token i fits the token before it. */
  predicate StepAt(tokens: seq<Token>, i: nat)
    requires 0 < i < |tokens|
  {
    StepOk(tokens[i - 1], tokens[i])
  }

  /**
   * In a well-formed stream no token closes more elements than are open,
   * and every element token has depth at least 1.
   */
  lemma {:induction false} WellFormedDepths(tokens: seq<Token>, i: nat)
    requires WellFormed(tokens) && i < |tokens|
    ensures InnerAfter(tokens[i]) >= 0
    ensures tokens[i].kind == StartElement || tokens[i].kind == EndElement ==> tokens[i].depth >= 1
  {
    if i > 0 {
      assert StepAt(tokens, i);
      WellFormedDepths(tokens, i - 1);
    }
  }

  /** The failures the stream itself or the cursors' sanity checks raise. */
  datatype ReadError =
    | NoMoreEvents
    | UnexpectedEndDocument
    | WrongEndElement(expected: int, actual: int)

  /** The shared stream reader: a fixed token sequence and the current position. */
  class TokenStream {
    const tokens: seq<Token>
    var pos: nat

    ghost predicate Valid()
      reads this
    {
      pos < |tokens|
    }

    constructor (tokens: seq<Token>)
      requires |tokens| > 0
      ensures Valid() && this.tokens == tokens && pos == 0
    {
      this.tokens := tokens;
      pos := 0;
    }

    function Current(): Token
      reads this
      requires Valid()
    {
      tokens[pos]
    }

    /** XMLStreamReader.hasNext(): false once END_DOCUMENT is reached. */
    function HasNext(): bool
      reads this
    {
      pos + 1 < |tokens|
    }

    /** XMLStreamReader.next(): advance and return the new event, or fail at the end. */
    method Next() returns (r: Result<EventKind, ReadError>)
      requires Valid()
      modifies this
      ensures Valid()
      ensures old(HasNext()) ==> pos == old(pos) + 1 && r == Ok(tokens[pos].kind)
      ensures !old(HasNext()) ==> pos == old(pos) && r == Err(NoMoreEvents)
    {
      if pos + 1 < |tokens| {
        pos := pos + 1;
        r := Ok(tokens[pos].kind);
      } else {
        r := Err(NoMoreEvents);
      }
    }
  }
}
