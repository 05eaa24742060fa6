/** The namespace-inferring reader (`NonNamespacedXmlStreamReader`): a
    decorator around a pull-style XML cursor that overrides one query, the
    namespace of the attribute at a given index of the current start element.
    The wrapped cursor is modelled by the attributes of its current element. */
module NamespaceReader {
  import opened Options
  import opened Namespaces

  /** One attribute of the current element as the wrapped cursor reports it;
      `namespace` is `None` where the cursor answers `null`. */
  datatype Attribute = Attribute(localName: string, namespace: Option<string>)

  /** The two local names whose namespace the reader supplies: exact,
      case-sensitive matches only. */
  predicate IsSchemaInstanceName(name: string) {
    name == TypeName || name == NilName
  }

  /** `getAttributeNamespace(index)` on the filter. The index bound is the
      wrapped cursor's own precondition; the filter adds no error of its own. */
  function AttributeNamespace(attributes: seq<Attribute>, index: int): (ns: Option<string>)
    requires 0 <= index < |attributes|
    ensures ns == attributes[index].namespace || ns == Some(SchemaInstanceUri)
    ensures ns != attributes[index].namespace ==> IsSchemaInstanceName(attributes[index].localName)
    ensures IsSchemaInstanceName(attributes[index].localName) ==> ns == Some(SchemaInstanceUri)
    ensures !IsSchemaInstanceName(attributes[index].localName) ==> ns == attributes[index].namespace
  {
    var attributeName := attributes[index].localName;
    if IsSchemaInstanceName(attributeName) then Some(SchemaInstanceUri)
    else attributes[index].namespace
  }

  /** The current element's attributes as `getAttributeLocalName` and
      `getAttributeNamespace` report them through the filter: the local name
      is inherited unchanged from the wrapped cursor, the namespace is the
      overridden query. Other attribute queries are not part of this view. */
  function View(attributes: seq<Attribute>): (v: seq<Attribute>)
    ensures |v| == |attributes|
    ensures forall i :: 0 <= i < |v| ==> v[i].localName == attributes[i].localName
    ensures forall i :: 0 <= i < |v| && v[i] != attributes[i] ==>
              IsSchemaInstanceName(attributes[i].localName) && v[i].namespace == Some(SchemaInstanceUri)
  {
    seq(|attributes|, i requires 0 <= i < |attributes| =>
      Attribute(attributes[i].localName, AttributeNamespace(attributes, i)))
  }

  /** `type` and `nil` are reported in the schema-instance namespace, whatever
      namespace (or none) the attribute really has. */
  lemma TypeAndNilInSchemaInstance(attributes: seq<Attribute>, index: int)
    requires 0 <= index < |attributes|
    requires attributes[index].localName == TypeName || attributes[index].localName == NilName
    ensures AttributeNamespace(attributes, index) == Some(SchemaInstanceUri)
  {
  }

  /** Every other local name gets the wrapped cursor's own answer. */
  lemma OtherNamesDelegated(attributes: seq<Attribute>, index: int)
    requires 0 <= index < |attributes|
    requires !IsSchemaInstanceName(attributes[index].localName)
    ensures AttributeNamespace(attributes, index) == attributes[index].namespace
  {
  }

  /** The match is case-sensitive: `Type` and `NIL` are delegated. */
  lemma MatchIsCaseSensitive(ns: Option<string>)
    ensures AttributeNamespace([Attribute("Type", ns), Attribute("NIL", ns)], 0) == ns
    ensures AttributeNamespace([Attribute("Type", ns), Attribute("NIL", ns)], 1) == ns
  {
  }

  /** The answer depends only on the attribute asked about, not on its position
      or on the other attributes of the element. */
  lemma LookupIsLocal(a: seq<Attribute>, i: int, b: seq<Attribute>, j: int)
    requires 0 <= i < |a| && 0 <= j < |b|
    requires a[i] == b[j]
    ensures AttributeNamespace(a, i) == AttributeNamespace(b, j)
  {
  }

  /** Only the namespace query is altered: the attribute count and every local
      name are the wrapped cursor's, and a namespace changes only at a `type`
      or `nil` attribute, where it becomes the schema-instance namespace. */
  lemma ViewAltersOnlyNamespaces(attributes: seq<Attribute>)
    ensures |View(attributes)| == |attributes|
    ensures forall i :: 0 <= i < |attributes| ==>
              View(attributes)[i].localName == attributes[i].localName
    ensures forall i :: 0 <= i < |attributes| && !IsSchemaInstanceName(attributes[i].localName) ==>
              View(attributes)[i] == attributes[i]
    ensures forall i :: 0 <= i < |attributes| && IsSchemaInstanceName(attributes[i].localName) ==>
              View(attributes)[i].namespace == Some(SchemaInstanceUri)
  {
  }

  /** Wrapping a cursor in the reader twice is the same as wrapping it once. */
  lemma ViewIdempotent(attributes: seq<Attribute>)
    ensures View(View(attributes)) == View(attributes)
  {
    var v := View(attributes);
    assert |View(v)| == |v|;
    forall i | 0 <= i < |v| ensures View(v)[i] == v[i] {
      assert v[i].localName == attributes[i].localName;
    }
  }
}
