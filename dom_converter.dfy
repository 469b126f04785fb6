/**
 * The helpers of DOMConverter that do not depend on the W3C DOM: the
 * document type declaration text, the one-entry qualified-name cache, and
 * the array-backed stack of prefix bindings used while writing a DOM tree
 * in non-repairing mode.
 */
module DomConverter {
  import opened Wrappers
  import opened JavaStrings

  // ---------------------------------------------------------------------
  // _buildDTD: the document type declaration of XML 1.0 section 2.8
  // ---------------------------------------------------------------------

  predicate NonEmpty(s: Option<string>) { s.Some? && |s.value| > 0 }

  function Quoted(s: string): (q: string)
    ensures |q| == |s| + 2 && q[0] == '"' && q[|q| - 1] == '"' && q[1..|q| - 1] == s
  {
    "\"" + s + "\""
  }

  /**
   * The external id clause, with `sep` written before the keyword: PUBLIC
   * with both ids when there is a public id, SYSTEM with the system id when
   * there is only that, nothing otherwise.
   */
  function ExternalIdWith(sep: string, pubId: Option<string>, sysId: Option<string>): string
  {
    if NonEmpty(pubId) then sep + "PUBLIC " + Quoted(pubId.value) + " " + Quoted(JavaText(sysId))
    else if NonEmpty(sysId) then sep + "SYSTEM " + Quoted(sysId.value)
    else ""
  }

  /** The bracketed internal subset, present only when the subset is non-empty. */
  function SubsetClause(intSubset: Option<string>): string
  {
    if NonEmpty(intSubset) then " [" + intSubset.value + "]" else ""
  }

  function DoctypeWith(sep: string, name: string, pubId: Option<string>, sysId: Option<string>, intSubset: Option<string>): string
  {
    ("<!DOCTYPE " + name) + (ExternalIdWith(sep, pubId, sysId) + (SubsetClause(intSubset) + ">"))
  }

  /** DOMConverter._buildDTD as written: nothing separates the name from the keyword. */
  function BuildDtdAsWritten(name: string, pubId: Option<string>, sysId: Option<string>, intSubset: Option<string>): (r: string)
  {
    DoctypeWith("", name, pubId, sysId, intSubset)
  }


  /**
   * As written, a system id is glued to the root name: for the root
   * "html" and system id "x.dtd" the text is <!DOCTYPE htmlSYSTEM "x.dtd">,
   * whose name reads as "htmlSYSTEM" and which XML 1.0 rejects because a
   * white space must precede the external id.
   */
  lemma BuildDtdAsWrittenGluesKeyword()
    ensures BuildDtdAsWritten("html", None, Some("x.dtd"), None) == "<!DOCTYPE htmlSYSTEM \"x.dtd\">"
    ensures BuildDtdAsWritten("html", None, Some("x.dtd"), None)[14] == 'S'
  {
  }

  /** Whatever the separator, the declaration opens with "<!DOCTYPE " and the root name and closes with '>'. */
  lemma DoctypeFrame(sep: string, name: string, pubId: Option<string>, sysId: Option<string>, intSubset: Option<string>)
    ensures var r := DoctypeWith(sep, name, pubId, sysId, intSubset);
      |r| > 10 + |name| && r[..10 + |name|] == "<!DOCTYPE " + name && r[|r| - 1] == '>'
  {
    var head := "<!DOCTYPE " + name;
    var tail := ExternalIdWith(sep, pubId, sysId) + (SubsetClause(intSubset) + ">");
    assert (head + tail)[..|head|] == head;
    assert tail[|tail| - 1] == '>';
  }

  /** The as-written declaration keeps the frame: "<!DOCTYPE " and the root name first, '>' last. */
  lemma BuildDtdAsWrittenFrame(name: string, pubId: Option<string>, sysId: Option<string>, intSubset: Option<string>)
    ensures var r := BuildDtdAsWritten(name, pubId, sysId, intSubset);
      |r| > 10 + |name| && r[..10 + |name|] == "<!DOCTYPE " + name && r[|r| - 1] == '>'
  {
    DoctypeFrame("", name, pubId, sysId, intSubset);
  }

  /** The declaration with the white space XML 1.0 section 2.8 requires before the external id. */
  function BuildDtd(name: string, pubId: Option<string>, sysId: Option<string>, intSubset: Option<string>): (r: string)
  {
    DoctypeWith(" ", name, pubId, sysId, intSubset)
  }


  /** The corrected declaration has the same frame: "<!DOCTYPE " and the root name first, '>' last. */
  lemma BuildDtdFrame(name: string, pubId: Option<string>, sysId: Option<string>, intSubset: Option<string>)
    ensures var r := BuildDtd(name, pubId, sysId, intSubset);
      |r| > 10 + |name| && r[..10 + |name|] == "<!DOCTYPE " + name && r[|r| - 1] == '>'
  {
    DoctypeFrame(" ", name, pubId, sysId, intSubset);
  }

  /** With a public id, the name is followed by a space, PUBLIC and both quoted ids. */
  lemma BuildDtdPublic(name: string, pubId: Option<string>, sysId: Option<string>, intSubset: Option<string>)
    requires NonEmpty(pubId)
    ensures var r, n, p, s := BuildDtd(name, pubId, sysId, intSubset), 10 + |name|, pubId.value, JavaText(sysId);
      |r| > n + 13 + |p| + |s| && r[n..n + 13 + |p| + |s|] == " PUBLIC " + Quoted(p) + " " + Quoted(s)
  {
    var ext := ExternalIdWith(" ", pubId, sysId);
    assert ext == " PUBLIC " + Quoted(pubId.value) + " " + Quoted(JavaText(sysId));
    var head := "<!DOCTYPE " + name;
    assert (head + ext + (SubsetClause(intSubset) + ">"))[|head|..|head| + |ext|] == ext;
  }

  /** With only a system id, the name is followed by a space, SYSTEM and the quoted system id. */
  lemma BuildDtdSystem(name: string, pubId: Option<string>, sysId: Option<string>, intSubset: Option<string>)
    requires !NonEmpty(pubId) && NonEmpty(sysId)
    ensures var r, n, s := BuildDtd(name, pubId, sysId, intSubset), 10 + |name|, sysId.value;
      |r| > n + 10 + |s| && r[n..n + 10 + |s|] == " SYSTEM " + Quoted(s)
  {
    var ext := ExternalIdWith(" ", pubId, sysId);
    assert ext == " SYSTEM " + Quoted(sysId.value);
    var head := "<!DOCTYPE " + name;
    assert (head + ext + (SubsetClause(intSubset) + ">"))[|head|..|head| + |ext|] == ext;
  }

  /** With neither id, the name is followed directly by the subset clause and '>'. */
  lemma BuildDtdNoExternalId(name: string, pubId: Option<string>, sysId: Option<string>, intSubset: Option<string>)
    requires !NonEmpty(pubId) && !NonEmpty(sysId)
    ensures BuildDtd(name, pubId, sysId, intSubset)[10 + |name|..] == SubsetClause(intSubset) + ">"
  {
    var head := "<!DOCTYPE " + name;
    assert (head + "" + (SubsetClause(intSubset) + ">"))[|head|..] == SubsetClause(intSubset) + ">";
  }

  /** A non-empty internal subset is bracketed just before the final '>'. */
  lemma BuildDtdSubset(name: string, pubId: Option<string>, sysId: Option<string>, intSubset: Option<string>)
    requires NonEmpty(intSubset)
    ensures var r, t := BuildDtd(name, pubId, sysId, intSubset), intSubset.value;
      |r| >= 4 + |t| && r[|r| - 4 - |t|..] == " [" + t + "]>"
  {
    var head := ("<!DOCTYPE " + name) + ExternalIdWith(" ", pubId, sysId);
    var tail := " [" + intSubset.value + "]>";
    assert SubsetClause(intSubset) + ">" == tail;
    assert (head + tail)[|head|..] == tail;
  }

  /** An empty or missing internal subset leaves no trace in the text. */
  lemma BuildDtdNoSubset(name: string, pubId: Option<string>, sysId: Option<string>, intSubset: Option<string>)
    requires !NonEmpty(intSubset)
    ensures BuildDtd(name, pubId, sysId, intSubset) == BuildDtd(name, pubId, sysId, None)
  {
  }

  lemma ExternalIdSeparator(pubId: Option<string>, sysId: Option<string>)
    requires NonEmpty(pubId) || NonEmpty(sysId)
    ensures ExternalIdWith(" ", pubId, sysId) == " " + ExternalIdWith("", pubId, sysId)
  {
    if NonEmpty(pubId) {
      var p, s := pubId.value, JavaText(sysId);
      assert " " + "PUBLIC " + Quoted(p) + " " + Quoted(s) == " " + ("" + "PUBLIC " + Quoted(p) + " " + Quoted(s));
    } else {
      var s := sysId.value;
      assert " " + "SYSTEM " + Quoted(s) == " " + ("" + "SYSTEM " + Quoted(s));
    }
  }

  /** With an external id, the intended text is the written text with one space inserted after the name. */
  lemma BuildDtdInsertsSeparator(name: string, pubId: Option<string>, sysId: Option<string>, intSubset: Option<string>)
    requires NonEmpty(pubId) || NonEmpty(sysId)
    ensures var w, n := BuildDtdAsWritten(name, pubId, sysId, intSubset), 10 + |name|;
      n <= |w| && BuildDtd(name, pubId, sysId, intSubset) == w[..n] + " " + w[n..]
  {
    var head := "<!DOCTYPE " + name;
    var tail := SubsetClause(intSubset) + ">";
    var e := ExternalIdWith("", pubId, sysId);
    ExternalIdSeparator(pubId, sysId);
    assert BuildDtd(name, pubId, sysId, intSubset) == head + ((" " + e) + tail);
    assert BuildDtdAsWritten(name, pubId, sysId, intSubset) == head + (e + tail);
    InsertAfter(head, " ", e + tail);
    ConcatAssoc(" ", e, tail);
  }

  /** Putting `x` between `head` and `rest` is cutting head + rest after head and inserting x. */
  lemma InsertAfter(head: string, x: string, rest: string)
    ensures head + (x + rest) == (head + rest)[..|head|] + x + (head + rest)[|head|..]
  {
    assert (head + rest)[..|head|] == head;
    assert (head + rest)[|head|..] == rest;
  }

  /** Without an external id the written text is already the intended one. */
  lemma BuildDtdAsWrittenAgrees(name: string, pubId: Option<string>, sysId: Option<string>, intSubset: Option<string>)
    requires !NonEmpty(pubId) && !NonEmpty(sysId)
    ensures BuildDtdAsWritten(name, pubId, sysId, intSubset) == BuildDtd(name, pubId, sysId, intSubset)
  {
  }

  // ---------------------------------------------------------------------
  // QNameRecycler
  // ---------------------------------------------------------------------

  /** A one-entry cache of the last qualified name built. */
  class QNameRecycler {
    var lastPrefix: Option<string>
    var lastLocalName: Option<string>
    var lastQName: Option<string>

    /** The cached name is always the one that belongs to the cached key. */
    ghost predicate Valid()
      reads this
    {
      lastQName.Some? ==>
        lastPrefix.Some? && lastLocalName.Some? && lastQName.value == lastPrefix.value + ":" + lastLocalName.value
    }

    constructor ()
      ensures Valid() && lastPrefix.None? && lastLocalName.None? && lastQName.None?
    {
      lastPrefix, lastLocalName, lastQName := None, None, None;
    }

    /** QNameRecycler.getQualified: the cache never changes the answer. */
    method GetQualified(prefix: string, localName: string) returns (q: string)
      requires Valid()
      modifies this
      ensures Valid()
      ensures q == prefix + ":" + localName
      ensures lastPrefix == Some(prefix) && lastLocalName == Some(localName) && lastQName == Some(q)
    {
      if lastQName.Some? && lastLocalName == Some(localName) && lastPrefix == Some(prefix) {
        return lastQName.value;
      }
      lastLocalName := Some(localName);
      lastPrefix := Some(prefix);
      q := prefix + ":" + localName;
      lastQName := Some(q);
    }
  }

  // ---------------------------------------------------------------------
  // NsStack
  // ---------------------------------------------------------------------

  /** The namespace name bound to "xml" (Namespaces in XML 1.0, section 3). */
  const XML_NS_URI: string := "http://www.w3.org/XML/1998/namespace"
  /** The namespace name bound to "xmlns" (Namespaces in XML 1.0, section 3). */
  const XMLNS_ATTRIBUTE_NS_URI: string := "http://www.w3.org/2000/xmlns/"

  /** The predefined bindings, as (prefix, URI) pairs laid out flat. */
  const PREDEFS: seq<string> := ["xml", XML_NS_URI, "xmlns", XMLNS_ATTRIBUTE_NS_URI, "", ""]

  /** The URI of the most recent binding of `prefix` in a flat list of pairs. */
  function Lookup(data: seq<string>, prefix: string): Option<string>
    requires |data| % 2 == 0
  {
    if |data| == 0 then None
    else if data[|data| - 2] == prefix then Some(data[|data| - 1])
    else Lookup(data[..|data| - 2], prefix)
  }

  /** A prefix has no binding exactly when no pair names it. */
  lemma {:induction false} LookupNoneIff(data: seq<string>, prefix: string)
    requires |data| % 2 == 0
    ensures Lookup(data, prefix).None? <==> forall j :: 0 <= j < |data| && j % 2 == 0 ==> data[j] != prefix
  {
    if |data| > 0 {
      var d := data[..|data| - 2];
      LookupNoneIff(d, prefix);
      assert forall j :: 0 <= j < |d| ==> d[j] == data[j];
    }
  }

  /** Adding a pair makes it the answer for its prefix and hides nothing else. */
  lemma LookupAfterAdd(data: seq<string>, p: string, u: string, q: string)
    requires |data| % 2 == 0
    ensures Lookup(data + [p, u], q) == if q == p then Some(u) else Lookup(data, q)
  {
    assert (data + [p, u])[..|data|] == data;
  }

  /** The root bindings resolve "xml", "xmlns" and the empty prefix. */
  lemma PredefsBindings()
    ensures Lookup(PREDEFS, "xml") == Some(XML_NS_URI)
    ensures Lookup(PREDEFS, "xmlns") == Some(XMLNS_ATTRIBUTE_NS_URI)
    ensures Lookup(PREDEFS, "") == Some("")
  {
    assert |"xmlns"| != |"xml"| && |""| != |"xml"| && |""| != |"xmlns"|;
    assert PREDEFS[..4] == ["xml", XML_NS_URI, "xmlns", XMLNS_ATTRIBUTE_NS_URI];
    assert PREDEFS[..4][..2] == ["xml", XML_NS_URI];
    assert Lookup(PREDEFS, "xml") == Lookup(PREDEFS[..4], "xml");
    assert Lookup(PREDEFS[..4], "xml") == Lookup(PREDEFS[..4][..2], "xml");
    assert Lookup(PREDEFS, "xmlns") == Lookup(PREDEFS[..4], "xmlns");
  }

  /** A null prefix is stored as the empty prefix. */
  function NormalizePrefix(prefix: Option<string>): (p: string)
    ensures prefix.Some? ==> p == prefix.value
    ensures prefix.None? ==> p == ""
  {
    if prefix.None? then "" else prefix.value
  }

  class NsStack {
    const repairing: bool
    /** The one array of predefined bindings every root instance starts from. */
    const predefs: array<string>
    var nsData: array<string>
    var end: nat

    ghost predicate Valid()
      reads this, predefs
    {
      predefs[..] == PREDEFS
      && end <= nsData.Length && end % 2 == 0
      && nsData.Length % 2 == 0 && nsData.Length >= 2
      && (nsData == predefs ==> end == nsData.Length)
    }

    /** The bindings in force, oldest first. */
    function Bindings(): seq<string>
      reads this, nsData
      requires end <= nsData.Length
    {
      nsData[..end]
    }

    /** NsStack.rootInstance: the predefined bindings, sharing the predefined array. */
    constructor RootInstance(repairing: bool, predefs: array<string>)
      requires predefs[..] == PREDEFS
      ensures Valid() && this.predefs == predefs && nsData == predefs
      ensures Bindings() == PREDEFS && this.repairing == repairing
    {
      this.repairing := repairing;
      this.predefs := predefs;
      nsData := predefs;
      end := predefs.Length;
      new;
      assert nsData[..end] == predefs[..];
    }

    constructor Share(repairing: bool, predefs: array<string>, data: array<string>, end: nat)
      requires predefs[..] == PREDEFS
      requires end <= data.Length && end % 2 == 0 && data.Length % 2 == 0 && data.Length >= 2
      requires data == predefs ==> end == data.Length
      ensures Valid() && this.predefs == predefs && nsData == data && this.end == end
      ensures this.repairing == repairing
    {
      this.repairing := repairing;
      this.predefs := predefs;
      nsData := data;
      this.end := end;
    }

    /**
     * NsStack.childInstance: the same bindings; a copy when this instance
     * still uses the predefined array, otherwise the same array.
     */
    method ChildInstance() returns (child: NsStack)
      requires Valid()
      ensures child.Valid() && fresh(child)
      ensures child.Bindings() == Bindings() && child.end == end
      ensures child.predefs == predefs && child.repairing == repairing
      ensures child.nsData != predefs
      ensures nsData == predefs ==> fresh(child.nsData) && child.nsData.Length == 16
      ensures nsData != predefs ==> child.nsData == nsData
    {
      if nsData == predefs {
        var data := new string[16](_ => "");
        forall i | 0 <= i < end {
          data[i] := nsData[i];
        }
        child := new NsStack.Share(repairing, predefs, data, end);
        assert child.Bindings() == Bindings();
      } else {
        child := new NsStack.Share(repairing, predefs, nsData, end);
      }
    }

    /** NsStack.hasBinding: whether the most recent binding of `prefix` is to `uri`. */
    method HasBinding(prefix: string, uri: string) returns (r: bool)
      requires Valid()
      ensures r <==> Lookup(Bindings(), prefix) == Some(uri)
    {
      var i: int := end - 2;
      while i >= 0
        invariant -2 <= i <= end - 2 && i % 2 == 0
        invariant Lookup(nsData[..end], prefix) == Lookup(nsData[..i + 2], prefix)
        decreases i
      {
        assert nsData[..i + 2][..i] == nsData[..i];
        if nsData[i] == prefix {
          return nsData[i + 1] == uri;
        }
        i := i - 2;
      }
      r := false;
    }

    /**
     * NsStack.addBinding: appends the pair after the bindings in force,
     * first doubling the array when it is full. Nothing before the old end
     * moves, and the predefined array is never written.
     */
    method AddBinding(prefix: Option<string>, uri: string)
      requires Valid()
      modifies this, nsData
      ensures Valid()
      ensures Bindings() == old(Bindings()) + [NormalizePrefix(prefix), uri]
      ensures old(end) >= old(nsData.Length) ==> fresh(nsData) && nsData.Length == 2 * old(nsData.Length)
      ensures old(end) < old(nsData.Length) ==> nsData == old(nsData)
      ensures nsData != old(nsData) ==> old(nsData)[..] == old(nsData[..])
      ensures forall j :: 0 <= j < old(nsData.Length) && j != old(end) && j != old(end) + 1 ==> old(nsData)[j] == old(nsData[j])
      ensures end == old(end) + 2
    {
      var p := NormalizePrefix(prefix);
      if end >= nsData.Length {
        Grow();
      }
      nsData[end] := p;
      nsData[end + 1] := uri;
      end := end + 2;
      assert nsData[..end] == old(nsData[..end]) + [p, uri];
    }

    /** The doubling step of addBinding: a fresh array twice as long starting with the old contents. */
    method Grow()
      requires Valid()
      modifies this
      ensures Valid() && end == old(end) && fresh(nsData)
      ensures nsData.Length == 2 * old(nsData.Length) && nsData[..old(nsData.Length)] == old(nsData[..])
    {
      var data := new string[nsData.Length * 2](_ => "");
      forall i | 0 <= i < nsData.Length {
        data[i] := nsData[i];
      }
      assert data[..nsData.Length] == nsData[..];
      nsData := data;
    }
  }

  /**
   * What the DOM writer relies on: a child scope sees its new binding,
   * while the bindings of its parent scope read exactly as before.
   */
  method ChildScopeBinding(parent: NsStack, prefix: Option<string>, uri: string) returns (child: NsStack, inChild: bool)
    requires parent.Valid()
    modifies parent.nsData
    ensures parent.Valid() && parent.Bindings() == old(parent.Bindings())
    ensures inChild && child.Valid()
    ensures child.Bindings() == old(parent.Bindings()) + [NormalizePrefix(prefix), uri]
  {
    child := parent.ChildInstance();
    child.AddBinding(prefix, uri);
    assert parent.nsData[..parent.end] == old(parent.nsData[..parent.end]);
    LookupAfterAdd(old(parent.Bindings()), NormalizePrefix(prefix), uri, NormalizePrefix(prefix));
    inChild := child.HasBinding(NormalizePrefix(prefix), uri);
  }
}
