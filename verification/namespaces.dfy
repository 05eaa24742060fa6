/** The two namespace names both filters treat specially. */
module Namespaces {

  /** The XML Schema instance namespace (`xsi:`), section 2.6 of
      XML Schema Part 1: Structures. It carries `xsi:type` (section 2.6.1)
      and `xsi:nil` (section 2.6.2). */
  const SchemaInstanceUri: string := "http://www.w3.org/2001/XMLSchema-instance"

  /** The XML Schema namespace (`xs:`/`xsd:`), home of the built-in types. */
  const SchemaUri: string := "http://www.w3.org/2001/XMLSchema"

  /** The two local names the reader maps into the schema-instance namespace. */
  const TypeName: string := "type"
  const NilName: string := "nil"
}
