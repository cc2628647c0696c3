/**
 * The symbol descriptors the reader produces: member elements as values,
 * and the type element, whose collections the reader fills in place.
 */
module Elements {
  import opened Wrappers

  /** Which query a member element came from. A function is property-compatible. */
  datatype MemberKind = Property | Function | Event

  /**
   * A property, function or event element. How its fields are read from
   * the record is not part of this model, so the element carries the
   * record it was populated from.
   */
  datatype MemberElement = MemberElement(kind: MemberKind, word: string, documents: seq<string>)

  /** The fields a type record decodes into. */
  datatype TypeRecord = TypeRecord(
    name: string,
    parentTypes: seq<string>,
    description: Option<string>,
    documents: seq<string>)

  /**
   * A type element. Parent types, documents, properties (functions
   * included) and events only ever grow.
   */
  class TypeElement {
    var name: string
    var parentTypes: seq<string>
    var description: Option<string>
    var documents: seq<string>
    var properties: seq<MemberElement>
    var events: seq<MemberElement>
    var serializeProperties: bool

    /** The decoded header of this type: everything but its members and flag. */
    function Header(): TypeRecord
      reads this
    {
      TypeRecord(name, parentTypes, description, documents)
    }

    constructor ()
      ensures Header() == TypeRecord("", [], None, [])
      ensures properties == [] && events == [] && !serializeProperties
    {
      name := "";
      parentTypes := [];
      description := None;
      documents := [];
      properties := [];
      events := [];
      serializeProperties := false;
    }

    method SetName(n: string)
      modifies this`name
      ensures name == n
    {
      name := n;
    }

    method AddParentType(parentType: string)
      modifies this`parentTypes
      ensures parentTypes == old(parentTypes) + [parentType]
    {
      parentTypes := parentTypes + [parentType];
    }

    method SetDescription(d: string)
      modifies this`description
      ensures description == Some(d)
    {
      description := Some(d);
    }

    method AddDocument(document: string)
      modifies this`documents
      ensures documents == old(documents) + [document]
    {
      documents := documents + [document];
    }

    method AddProperty(property: MemberElement)
      modifies this`properties
      ensures properties == old(properties) + [property]
    {
      properties := properties + [property];
    }

    method AddEvent(event: MemberElement)
      modifies this`events
      ensures events == old(events) + [event]
    {
      events := events + [event];
    }

    method SetSerializeProperties(value: bool)
      modifies this`serializeProperties
      ensures serializeProperties == value
    {
      serializeProperties := value;
    }
  }
}
