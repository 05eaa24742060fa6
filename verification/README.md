# Namespace filters for streaming XML (narcolepsy)

A Dafny model of the two decorators that let a namespace-aware XML binding
layer read and write a dialect without namespace declarations:

- `NonNamespacedXmlStreamWriter` wraps a push-style emitter (`XMLStreamWriter`).
  It writes every attribute in the XML Schema instance namespace (`xsi`, section
  2.6 of XML Schema Part 1) without its namespace, dropping everything up to and
  including the first colon of its value. It drops `writeNamespace` for the
  schema-instance and schema namespaces, and `writeDefaultNamespace` for the
  schema-instance namespace only. It swallows comments, processing
  instructions, CDATA, DTDs and entity references. Everything else is forwarded.
- `NonNamespacedXmlStreamReader` wraps a pull-style cursor (`XMLStreamReader`).
  It reports the schema-instance namespace for any attribute whose local name is
  exactly `type` or `nil` (`xsi:type` and `xsi:nil`, sections 2.6.1 and 2.6.2).
  Every other query goes to the wrapped cursor.

Both filters are stateless, so they are modelled as pure functions.

- `namespaces.dfy` (module `Namespaces`) holds the two namespace names and the two local names.
- `java_strings.dfy` (module `JavaStrings`) models `String.indexOf(char)`, with its -1 sentinel, and `String.substring(int)`, counting positions in Unicode scalar values (see "## Left out").
- `writer.dfy` (module `NamespaceWriter`) holds the writer.
  - Each writer call is one `WriterCall` constructor, one per Java overload.
  - `Forward` maps a call to the calls that reach the wrapped emitter: none or one.
  - `FilterTrace` does the same for a whole sequence of calls.
  - `Clean` says which calls the non-namespaced dialect accepts as they are.
- `reader.dfy` (module `NamespaceReader`) holds the reader.
  - The cursor's current element is its list of `(localName, namespace)` attributes.
  - `AttributeNamespace` is the overridden query.
  - `View` is the element as seen through the filter.
- `round_trip.dfy` (module `RoundTrip`) connects the two filters.
  - It takes an attribute written through the writer and reads it back through the reader.
  - An idealised emitter and parser sit in between: an attribute keeps exactly the namespace it was written with.
- `options.dfy` (module `Options`) holds the `Option` type for a cursor answer that can be `null`.

A consequence of the code as written, proved in `RoundTrip.SchemaLocationLosesScheme`:
colon stripping applies to every schema-instance attribute, not only `xsi:type`.
So an `xsi:schemaLocation` value such as `http://example.com/a a.xsd` is
written as `//example.com/a a.xsd`. The model follows the code here.

## Model

| member | source | states |
|---|---|---|
| JavaStrings.IndexOf | src/main/scala/co/orderly/narcolepsy/marshallers/xml/namespaces/NonNamespacedXmlStreamWriter.java:76 | `indexOf(':')` is -1 exactly when the value has no colon; otherwise it is the position of a colon with none before it |
| JavaStrings.Substring | src/main/scala/co/orderly/narcolepsy/marshallers/xml/namespaces/NonNamespacedXmlStreamWriter.java:78 | `substring(k)` is the part of the value after its first k characters, so the value is the dropped prefix followed by the result |
| JavaStrings.IndexOfAfterPrefix | src/main/scala/co/orderly/narcolepsy/marshallers/xml/namespaces/NonNamespacedXmlStreamWriter.java:76-78 | for a value `pre:rest` with no colon in `pre`, the colon index is `|pre|`, so the substring taken is `rest` |
| NamespaceWriter.SchemaInstanceValue | src/main/scala/co/orderly/narcolepsy/marshallers/xml/namespaces/NonNamespacedXmlStreamWriter.java:75-79 | the value written for an xsi attribute is a suffix of the given value. It is strictly shorter exactly when the value has a colon. What is dropped ends at the first colon and holds no other |
| NamespaceWriter.Forward | src/main/scala/co/orderly/narcolepsy/marshallers/xml/namespaces/NonNamespacedXmlStreamWriter.java:30-176 | every writer call reaches the wrapped emitter at most once. A call passes through unchanged exactly when it is clean: no xsi-namespaced attribute, no xsi/XMLSchema namespace declaration, no xsi default namespace, no markup form. What is forwarded is always clean |
| NamespaceWriter.FilterTrace | src/main/scala/co/orderly/narcolepsy/marshallers/xml/namespaces/NonNamespacedXmlStreamWriter.java:24-28 | a trace of calls yields no more calls than it holds, and every call that reaches the emitter is clean |
| NamespaceWriter.SchemaInstanceAttributeWithColon | src/main/scala/co/orderly/narcolepsy/marshallers/xml/namespaces/NonNamespacedXmlStreamWriter.java:74-96 | an xsi attribute, in either overload, with value `pre:rest` and no colon in `pre` is written once, namespace-free, with the same local name and value `rest` |
| NamespaceWriter.SchemaInstanceAttributeWithoutColon | src/main/scala/co/orderly/narcolepsy/marshallers/xml/namespaces/NonNamespacedXmlStreamWriter.java:74-96 | an xsi attribute whose value has no colon is still written namespace-free, once, with the value unchanged |
| NamespaceWriter.PrefixedTypeValueExample | src/main/scala/co/orderly/narcolepsy/marshallers/xml/namespaces/NonNamespacedXmlStreamWriter.java:86-92 | `xsi:type="ns1:Foo"` is written as `type="Foo"` |
| NamespaceWriter.FirstColonOnlyExample | src/main/scala/co/orderly/narcolepsy/marshallers/xml/namespaces/NonNamespacedXmlStreamWriter.java:86-92 | `xsi:type="a:b:c"` is written as `type="b:c"`: only the first colon counts |
| NamespaceWriter.PlainValueExample | src/main/scala/co/orderly/narcolepsy/marshallers/xml/namespaces/NonNamespacedXmlStreamWriter.java:74-80 | `xsi:nil="true"` is written as `nil="true"` |
| NamespaceWriter.SchemaInstanceAttributeValue | src/main/scala/co/orderly/narcolepsy/marshallers/xml/namespaces/NonNamespacedXmlStreamWriter.java:74-96 | any xsi attribute yields exactly one namespace-free attribute of the same local name. Its value is a suffix of the given one, strictly shorter exactly when the given one has a colon |
| NamespaceWriter.OtherNamespaceAttributeForwarded | src/main/scala/co/orderly/narcolepsy/marshallers/xml/namespaces/NonNamespacedXmlStreamWriter.java:81-95 | an attribute in any namespace other than xsi is forwarded once, in the same overload, with identical arguments |
| NamespaceWriter.NamespaceDeclaration | src/main/scala/co/orderly/narcolepsy/marshallers/xml/namespaces/NonNamespacedXmlStreamWriter.java:98-102 | `writeNamespace` is dropped exactly when the URI is the xsi or the XMLSchema namespace. Otherwise it is forwarded once, unchanged |
| NamespaceWriter.DefaultNamespaceDeclaration | src/main/scala/co/orderly/narcolepsy/marshallers/xml/namespaces/NonNamespacedXmlStreamWriter.java:104-108 | `writeDefaultNamespace` is dropped exactly when the URI is the xsi namespace. The XMLSchema namespace and every other URI are forwarded unchanged |
| NamespaceWriter.MarkupDropped | src/main/scala/co/orderly/narcolepsy/marshallers/xml/namespaces/NonNamespacedXmlStreamWriter.java:110-132 | comments, both processing-instruction forms, CDATA, DTDs and entity references send nothing to the wrapped emitter |
| NamespaceWriter.ElementAndLifecycleForwarded | src/main/scala/co/orderly/narcolepsy/marshallers/xml/namespaces/NonNamespacedXmlStreamWriter.java:30-72 | the start- and empty-element writes in all three shapes, end element, end document, close, flush and the namespace-free attribute are each forwarded once with identical arguments |
| NamespaceWriter.DocumentTextAndPrefixForwarded | src/main/scala/co/orderly/narcolepsy/marshallers/xml/namespaces/NonNamespacedXmlStreamWriter.java:134-176 | the start-document writes, both characters forms, the prefix, default-namespace and namespace-context calls and the property lookup are each forwarded once with identical arguments |
| NamespaceWriter.FilterTraceAppend | src/main/scala/co/orderly/narcolepsy/marshallers/xml/namespaces/NonNamespacedXmlStreamWriter.java:24-28 | the filter holds no state besides the wrapped emitter. Filtering a concatenation gives the concatenation of the filtered parts, so forwarded calls keep their order |
| NamespaceWriter.FilterTraceIdentity | src/main/scala/co/orderly/narcolepsy/marshallers/xml/namespaces/NonNamespacedXmlStreamWriter.java:74-132 | a trace passes through unchanged if and only if every call in it is clean |
| NamespaceWriter.FilterTraceIdempotent | src/main/scala/co/orderly/narcolepsy/marshallers/xml/namespaces/NonNamespacedXmlStreamWriter.java:74-132 | wrapping an emitter in the filter twice behaves like wrapping it once |
| NamespaceReader.AttributeNamespace | src/main/scala/co/orderly/narcolepsy/marshallers/xml/namespaces/NonNamespacedXmlStreamReader.java:28-34 | an attribute named exactly `type` or `nil` is reported in the xsi namespace; for every other name the answer is the wrapped cursor's. So the answer is always either the wrapped answer or the xsi namespace, and differs from the wrapped answer only at `type` or `nil` |
| NamespaceReader.View | src/main/scala/co/orderly/narcolepsy/marshallers/xml/namespaces/NonNamespacedXmlStreamReader.java:28-33 | the element as `getAttributeLocalName` and `getAttributeNamespace` report it through the filter keeps the wrapped attribute count and every local name. An attribute differs from the wrapped one only if it is named `type` or `nil`, and then its namespace is xsi |
| NamespaceReader.TypeAndNilInSchemaInstance | src/main/scala/co/orderly/narcolepsy/marshallers/xml/namespaces/NonNamespacedXmlStreamReader.java:29-31 | an attribute named exactly `type` or `nil` is reported in the xsi namespace, whatever its real namespace is, or if it has none |
| NamespaceReader.OtherNamesDelegated | src/main/scala/co/orderly/narcolepsy/marshallers/xml/namespaces/NonNamespacedXmlStreamReader.java:33 | for every other local name the answer is the wrapped cursor's own |
| NamespaceReader.MatchIsCaseSensitive | src/main/scala/co/orderly/narcolepsy/marshallers/xml/namespaces/NonNamespacedXmlStreamReader.java:30 | `Type` and `NIL` are delegated unchanged |
| NamespaceReader.LookupIsLocal | src/main/scala/co/orderly/narcolepsy/marshallers/xml/namespaces/NonNamespacedXmlStreamReader.java:28-33 | the answer depends only on the attribute at the index asked about |
| NamespaceReader.ViewAltersOnlyNamespaces | src/main/scala/co/orderly/narcolepsy/marshallers/xml/namespaces/NonNamespacedXmlStreamReader.java:21-34 | through the filter the element keeps its attribute count and every local name. An attribute changes only if it is named `type` or `nil`, and then only in its namespace, which becomes xsi |
| NamespaceReader.ViewIdempotent | src/main/scala/co/orderly/narcolepsy/marshallers/xml/namespaces/NonNamespacedXmlStreamReader.java:28-33 | wrapping a cursor in the reader twice behaves like wrapping it once |
| RoundTrip.SchemaInstanceNamespaceRestored | src/main/scala/co/orderly/narcolepsy/marshallers/xml/namespaces/NonNamespacedXmlStreamReader.java:29-31 | an xsi attribute written through the writer reaches the output without a namespace. Read back through the reader, it is reported in the xsi namespace exactly when it is named `type` or `nil` |
| RoundTrip.OtherNamespaceKept | src/main/scala/co/orderly/narcolepsy/marshallers/xml/namespaces/NonNamespacedXmlStreamWriter.java:81-95 | an attribute in another namespace, not named `type` or `nil`, is read back through both filters in its own namespace |
| RoundTrip.SchemaLocationLosesScheme | src/main/scala/co/orderly/narcolepsy/marshallers/xml/namespaces/NonNamespacedXmlStreamWriter.java:86-92 | `xsi:schemaLocation="http://example.com/a a.xsd"` is written as `schemaLocation="//example.com/a a.xsd"`. That emitted attribute, parsed back and read through the reader, is reported with no namespace |

## Left out

- The wrapped emitter and cursor are not modelled. The model records the calls that reach the emitter, and the cursor is reduced to the attributes of its current element. The characters they read or write are not modelled.
- `XMLStreamException` and `IllegalArgumentException` propagation is left out. The filters add no error of their own; every failure comes from the wrapped object.
- Java `null` strings are not modelled: every string argument is non-null. A null namespace would fall through to the forwarding branch, because `"...".equals(null)` is false. A null value with the xsi namespace would throw at lines 76 and 88 of the writer. The one null the model keeps is the cursor's "no namespace" answer, as `Option.None`.
- Return values of `getPrefix`, `getNamespaceContext` and `getProperty` are not modelled, and `NamespaceContext` is an opaque handle. These calls are modelled only as forwarded once.
- `writeCharacters(char[], int, int)` is an opaque call whose arguments are forwarded unchanged. The array slicing belongs to the wrapped emitter.
- All other cursor queries are inherited unchanged from `StreamReaderDelegate`, which is not part of this model. `NamespaceReader.View` covers only what `getAttributeLocalName` and `getAttributeNamespace` report.
- Attribute queries other than those two are not modelled. They still go straight to the wrapped cursor, for example `getAttributeName(int)` (a QName) and `getAttributeValue(String, String)`. For a `type` or `nil` attribute, the QName's namespace can therefore differ from what `getAttributeNamespace` reports.
- Thread safety and the semantics of `close` and `flush` beyond forwarding are left out.
- The emitter and parser between the two filters in `RoundTrip` are idealised: an attribute is read back in exactly the namespace it was written with.
- JavaStrings.IndexOf: positions count Unicode scalar values (Dafny `char`), not UTF-16 code units as Java's `indexOf` does. When a supplementary character comes before the colon, the index differs (for `𝒳:a`, 1 here and 2 in Java). The substring taken does not differ, because `:` is never part of a surrogate pair. Strings with unpaired surrogates cannot be represented.
- JavaStrings.Substring: `begin` counts Unicode scalar values, not UTF-16 code units as Java's `substring` does. It is only ever applied just past the first colon, so the text it returns is the same as Java's. Strings with unpaired surrogates cannot be represented.
