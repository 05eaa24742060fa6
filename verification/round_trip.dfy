/** What the two filters do together: an attribute written through the writer
    filter and read back through the reader filter. The emitter and the
    parser in between are idealised: an attribute written without a namespace
    is read back with none, and one written with a namespace is read back in
    that namespace. */
module RoundTrip {
  import opened Options
  import opened Namespaces
  import W = NamespaceWriter
  import R = NamespaceReader

  /** The attribute a namespace-aware cursor reports for an attribute write
      that reached the emitter; `None` for every other call. */
  function ParsedAttribute(c: W.WriterCall): (a: Option<R.Attribute>)
    ensures a.Some? <==> c.Attribute? || c.AttributeNs? || c.AttributePrefixed?
  {
    match c
    case Attribute(localName, _) => Some(R.Attribute(localName, None))
    case AttributeNs(ns, localName, _) => Some(R.Attribute(localName, Some(ns)))
    case AttributePrefixed(_, ns, localName, _) => Some(R.Attribute(localName, Some(ns)))
    case _ => None
  }

  /** The writer drops the schema-instance namespace from every attribute in
      it; the reader gives it back exactly to the attributes named `type` or
      `nil`. */
  lemma SchemaInstanceNamespaceRestored(c: W.WriterCall)
    requires W.IsSchemaInstanceAttribute(c)
    ensures |W.Forward(c)| == 1 && ParsedAttribute(W.Forward(c)[0]).Some?
    ensures ParsedAttribute(W.Forward(c)[0]).value.namespace == None
    ensures R.AttributeNamespace([ParsedAttribute(W.Forward(c)[0]).value], 0) == Some(SchemaInstanceUri)
            <==> R.IsSchemaInstanceName(c.localName)
  {
  }

  /** An attribute in any other namespace keeps that namespace through both
      filters, unless it is named `type` or `nil`. */
  lemma OtherNamespaceKept(c: W.WriterCall)
    requires c.AttributeNs? || c.AttributePrefixed?
    requires c.namespaceUri != SchemaInstanceUri
    requires !R.IsSchemaInstanceName(c.localName)
    ensures |W.Forward(c)| == 1 && ParsedAttribute(W.Forward(c)[0]).Some?
    ensures R.AttributeNamespace([ParsedAttribute(W.Forward(c)[0]).value], 0) == Some(c.namespaceUri)
  {
  }

  /** The colon stripping applies to every schema-instance attribute, not only
      to `xsi:type`: an `xsi:schemaLocation` value that starts with a URI
      scheme loses the scheme, and the attribute the writer emits is read back
      with no namespace. */
  lemma SchemaLocationLosesScheme()
    ensures W.Forward(W.AttributeNs(SchemaInstanceUri, "schemaLocation", "http://example.com/a a.xsd"))
            == [W.Attribute("schemaLocation", "//example.com/a a.xsd")]
    ensures R.AttributeNamespace(
              [ParsedAttribute(W.Attribute("schemaLocation", "//example.com/a a.xsd")).value], 0)
            == None
  {
    var rest := "//example.com/a a.xsd";
    assert "http://example.com/a a.xsd" == "http" + [':'] + rest;
    W.SchemaInstanceAttributeWithColon("", "schemaLocation", "http", rest);
  }
}
