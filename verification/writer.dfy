/** The namespace-suppressing writer (`NonNamespacedXmlStreamWriter`): a
    decorator around a push-style XML emitter. Each call made on the filter is
    modelled as a value of `WriterCall`; `Forward` gives the calls the filter
    makes on the wrapped emitter in response (none or one), and `FilterTrace`
    does the same for a whole sequence of calls. The wrapped emitter itself is
    not modelled: what reaches it is the recorded sequence of calls. */
module NamespaceWriter {
  import opened Namespaces
  import opened JavaStrings

  /** An opaque `NamespaceContext` object, passed through by identity. */
  datatype ContextHandle = ContextHandle(id: nat)

  /** One call on the `XMLStreamWriter` interface, one constructor per overload. */
  datatype WriterCall =
    | StartElement(localName: string)
    | StartElementNs(namespaceUri: string, localName: string)
    | StartElementPrefixed(prefix: string, localName: string, namespaceUri: string)
    | EmptyElementNs(namespaceUri: string, localName: string)
    | EmptyElementPrefixed(prefix: string, localName: string, namespaceUri: string)
    | EmptyElement(localName: string)
    | EndElement
    | EndDocument
    | Close
    | Flush
    | Attribute(localName: string, value: string)
    | AttributePrefixed(prefix: string, namespaceUri: string, localName: string, value: string)
    | AttributeNs(namespaceUri: string, localName: string, value: string)
    | Namespace(prefix: string, namespaceUri: string)
    | DefaultNamespace(namespaceUri: string)
    | Comment(data: string)
    | ProcessingInstruction(target: string)
    | ProcessingInstructionData(target: string, data: string)
    | CData(data: string)
    | Dtd(dtd: string)
    | EntityRef(name: string)
    | StartDocument
    | StartDocumentVersion(version: string)
    | StartDocumentEncoding(encoding: string, version: string)
    | Characters(text: string)
    | CharactersRange(chars: seq<char>, start: int, len: int)
    | GetPrefix(uri: string)
    | SetPrefix(prefix: string, uri: string)
    | SetDefaultNamespace(uri: string)
    | SetNamespaceContext(context: ContextHandle)
    | GetNamespaceContext
    | GetProperty(name: string)

  /** The markup forms the filter never emits: comments, processing
      instructions, CDATA sections, DTDs and entity references. */
  predicate IsMarkup(c: WriterCall) {
    c.Comment? || c.ProcessingInstruction? || c.ProcessingInstructionData?
    || c.CData? || c.Dtd? || c.EntityRef?
  }

  /** An attribute write that names the schema-instance namespace. */
  predicate IsSchemaInstanceAttribute(c: WriterCall) {
    (c.AttributePrefixed? || c.AttributeNs?) && c.namespaceUri == SchemaInstanceUri
  }

  /** A call that is already acceptable in the non-namespaced dialect: it is
      not a markup form, names the schema-instance namespace on no attribute,
      declares neither schema namespace through `writeNamespace`, and does not
      make the schema-instance namespace the default. */
  predicate Clean(c: WriterCall) {
    match c
    case AttributePrefixed(_, ns, _, _) => ns != SchemaInstanceUri
    case AttributeNs(ns, _, _) => ns != SchemaInstanceUri
    case Namespace(_, ns) => ns != SchemaInstanceUri && ns != SchemaUri
    case DefaultNamespace(ns) => ns != SchemaInstanceUri
    case _ => !IsMarkup(c)
  }

  predicate AllClean(t: seq<WriterCall>) {
    forall i :: 0 <= i < |t| ==> Clean(t[i])
  }

  /** The value written for a schema-instance attribute: everything up to and
      including the first colon is dropped; a value with no colon is kept. */
  function SchemaInstanceValue(value: string): (r: string)
    ensures IsSuffix(r, value)
    ensures |r| < |value| <==> ':' in value
    ensures ':' in value ==>
              value[|value| - |r| - 1] == ':' && ':' !in value[..|value| - |r| - 1]
  {
    var colonIndex := IndexOf(value, ':');
    if colonIndex > -1 then Substring(value, colonIndex + 1) else value
  }

  /** The calls the filter makes on the wrapped emitter for one call `c`. */
  function Forward(c: WriterCall): (out: seq<WriterCall>)
    ensures |out| <= 1
    ensures out == [c] <==> Clean(c)
    ensures forall x :: x in out ==> Clean(x)
  {
    if IsMarkup(c) then []
    else match c
      case AttributePrefixed(prefix, ns, localName, value) =>
        if ns == SchemaInstanceUri then [Attribute(localName, SchemaInstanceValue(value))]
        else [c]
      case AttributeNs(ns, localName, value) =>
        if ns == SchemaInstanceUri then [Attribute(localName, SchemaInstanceValue(value))]
        else [c]
      case Namespace(prefix, ns) =>
        if ns != SchemaInstanceUri && ns != SchemaUri then [c] else []
      case DefaultNamespace(ns) =>
        if ns != SchemaInstanceUri then [c] else []
      case _ => [c]
  }

  /** The calls reaching the wrapped emitter for a whole sequence of calls made
      on the filter, in order. */
  function FilterTrace(t: seq<WriterCall>): (r: seq<WriterCall>)
    ensures |r| <= |t|
    ensures AllClean(r)
  {
    if |t| == 0 then [] else Forward(t[0]) + FilterTrace(t[1..])
  }

  // ---------------------------------------------------------------------------
  // Single calls
  // ---------------------------------------------------------------------------

  /** A schema-instance attribute whose value is `pre:rest`, with no colon in
      `pre`, is written once, without namespace, under the same local name and
      with value `rest`. */
  lemma SchemaInstanceAttributeWithColon(prefix: string, localName: string, pre: string, rest: string)
    requires ':' !in pre
    ensures Forward(AttributePrefixed(prefix, SchemaInstanceUri, localName, pre + [':'] + rest))
            == [Attribute(localName, rest)]
    ensures Forward(AttributeNs(SchemaInstanceUri, localName, pre + [':'] + rest))
            == [Attribute(localName, rest)]
  {
    var value := pre + [':'] + rest;
    IndexOfAfterPrefix(pre, ':', rest);
    assert value[|pre| + 1..] == rest;
  }

  /** A schema-instance attribute whose value has no colon is still written
      without namespace, with the value unchanged. */
  lemma SchemaInstanceAttributeWithoutColon(prefix: string, localName: string, value: string)
    requires ':' !in value
    ensures Forward(AttributePrefixed(prefix, SchemaInstanceUri, localName, value))
            == [Attribute(localName, value)]
    ensures Forward(AttributeNs(SchemaInstanceUri, localName, value))
            == [Attribute(localName, value)]
  {
  }

  /** `ns1:Foo` is written as `Foo`. */
  lemma PrefixedTypeValueExample()
    ensures Forward(AttributeNs(SchemaInstanceUri, "type", "ns1:Foo")) == [Attribute("type", "Foo")]
  {
    assert "ns1:Foo" == "ns1" + [':'] + "Foo";
    SchemaInstanceAttributeWithColon("", "type", "ns1", "Foo");
  }

  /** `a:b:c` is written as `b:c`: only the first colon counts. */
  lemma FirstColonOnlyExample()
    ensures Forward(AttributeNs(SchemaInstanceUri, "type", "a:b:c")) == [Attribute("type", "b:c")]
  {
    assert "a:b:c" == "a" + [':'] + "b:c";
    SchemaInstanceAttributeWithColon("", "type", "a", "b:c");
  }

  /** `true`, with no colon, is written as it is. */
  lemma PlainValueExample()
    ensures Forward(AttributePrefixed("xsi", SchemaInstanceUri, "nil", "true")) == [Attribute("nil", "true")]
  {
    assert forall i :: 0 <= i < |"true"| ==> "true"[i] != ':';
    SchemaInstanceAttributeWithoutColon("xsi", "nil", "true");
  }

  /** Whatever its value, a schema-instance attribute comes out as exactly one
      namespace-free attribute of the same local name whose value is a suffix
      of the given one, strictly shorter exactly when the given one has a colon. */
  lemma SchemaInstanceAttributeValue(c: WriterCall)
    requires IsSchemaInstanceAttribute(c)
    ensures |Forward(c)| == 1
    ensures Forward(c)[0].Attribute?
    ensures Forward(c)[0].localName == c.localName
    ensures IsSuffix(Forward(c)[0].value, c.value)
    ensures |Forward(c)[0].value| < |c.value| <==> ':' in c.value
  {
  }

  /** An attribute in any other namespace is forwarded once, unchanged, in the
      same overload. */
  lemma OtherNamespaceAttributeForwarded(prefix: string, ns: string, localName: string, value: string)
    requires ns != SchemaInstanceUri
    ensures Forward(AttributePrefixed(prefix, ns, localName, value))
            == [AttributePrefixed(prefix, ns, localName, value)]
    ensures Forward(AttributeNs(ns, localName, value)) == [AttributeNs(ns, localName, value)]
  {
  }

  /** A namespace declaration is dropped exactly when it declares one of the
      two schema namespaces; otherwise it is forwarded once, unchanged. */
  lemma NamespaceDeclaration(prefix: string, ns: string)
    ensures Forward(Namespace(prefix, ns)) == [] <==> ns == SchemaInstanceUri || ns == SchemaUri
    ensures Forward(Namespace(prefix, ns)) != [] ==> Forward(Namespace(prefix, ns)) == [Namespace(prefix, ns)]
  {
  }

  /** A default-namespace declaration is dropped only for the schema-instance
      namespace; the schema namespace itself is forwarded. */
  lemma DefaultNamespaceDeclaration(ns: string)
    ensures Forward(DefaultNamespace(ns)) == [] <==> ns == SchemaInstanceUri
    ensures Forward(DefaultNamespace(ns)) != [] ==> Forward(DefaultNamespace(ns)) == [DefaultNamespace(ns)]
    ensures Forward(DefaultNamespace(SchemaUri)) == [DefaultNamespace(SchemaUri)]
  {
  }

  /** Comments, processing instructions, CDATA, DTDs and entity references
      reach the wrapped emitter never. */
  lemma MarkupDropped(c: WriterCall)
    requires IsMarkup(c)
    ensures Forward(c) == []
  {
  }

  /** Every element write in all three shapes, the end-element, end-document,
      close and flush calls, and the namespace-free attribute write are
      forwarded exactly once with the same arguments. */
  lemma ElementAndLifecycleForwarded(c: WriterCall)
    requires c.StartElement? || c.StartElementNs? || c.StartElementPrefixed?
             || c.EmptyElementNs? || c.EmptyElementPrefixed? || c.EmptyElement?
             || c.EndElement? || c.EndDocument? || c.Close? || c.Flush?
             || c.Attribute?
    ensures Forward(c) == [c]
  {
  }

  /** Every start-document, characters and prefix or namespace-context call,
      and every property lookup, is forwarded exactly once with the same
      arguments. */
  lemma DocumentTextAndPrefixForwarded(c: WriterCall)
    requires c.StartDocument? || c.StartDocumentVersion? || c.StartDocumentEncoding?
             || c.Characters? || c.CharactersRange?
             || c.GetPrefix? || c.SetPrefix? || c.SetDefaultNamespace?
             || c.SetNamespaceContext? || c.GetNamespaceContext? || c.GetProperty?
    ensures Forward(c) == [c]
  {
  }

  // ---------------------------------------------------------------------------
  // Traces
  // ---------------------------------------------------------------------------

  /** The filter keeps no state: a trace is filtered piece by piece, and the
      order of the calls it forwards is the order in which they were made. */
  lemma {:induction false} FilterTraceAppend(a: seq<WriterCall>, b: seq<WriterCall>)
    ensures FilterTrace(a + b) == FilterTrace(a) + FilterTrace(b)
    decreases |a|
  {
    if |a| == 0 {
      assert a + b == b;
    } else {
      assert (a + b)[1..] == a[1..] + b;
      FilterTraceAppend(a[1..], b);
    }
  }

  /** A trace passes through the filter unchanged exactly when every call in
      it is clean. */
  lemma {:induction false} FilterTraceIdentity(t: seq<WriterCall>)
    ensures FilterTrace(t) == t <==> AllClean(t)
    decreases |t|
  {
    if |t| == 0 {
    } else {
      FilterTraceIdentity(t[1..]);
      var f := Forward(t[0]);
      if Clean(t[0]) {
        assert FilterTrace(t) == [t[0]] + FilterTrace(t[1..]);
        if AllClean(t) {
          assert AllClean(t[1..]) by {
            forall i | 0 <= i < |t[1..]| ensures Clean(t[1..][i]) {
              assert t[1..][i] == t[i + 1];
            }
          }
          assert t == [t[0]] + t[1..];
        }
        if FilterTrace(t) == t {
          assert FilterTrace(t[1..]) == FilterTrace(t)[1..];
          assert AllClean(t) by {
            forall i | 0 <= i < |t| ensures Clean(t[i]) {
              if i > 0 {
                assert t[i] == t[1..][i - 1];
              }
            }
          }
        }
      } else {
        assert !AllClean(t);
        if |f| == 0 {
          assert |FilterTrace(t)| < |t|;
        } else {
          assert FilterTrace(t)[0] == f[0] != t[0];
        }
      }
    }
  }

  /** Wrapping the emitter in the filter twice is the same as wrapping it once. */
  lemma FilterTraceIdempotent(t: seq<WriterCall>)
    ensures FilterTrace(FilterTrace(t)) == FilterTrace(t)
  {
    FilterTraceIdentity(FilterTrace(t));
  }
}
