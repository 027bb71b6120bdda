/** The mapping interface the decoder drives. The decoder does not build
    values itself: it asks a mapper to create a container for the property
    it is about to read, to set a property of an object, and to append an
    element to an array. Here each of those four calls is an event, and one
    decoding is the sequence of events it issues, in order. The object a
    create call returns is named by a handle: the index of that create event
    in the sequence. */
module ObjectMapper {
  import opened Results
  import opened Chars
  import opened Values

  /** The container created by the event at this index. */
  type Handle = nat

  /** What the decoder hands to `SetProperty` and `AddElement`: either a
      token's value or a container returned by a create call. */
  datatype Elem = Lit(v: Value) | Obj(h: Handle)

  /** One mapper call with its arguments. `target` and `name` are the
      decoder's current target and property name, either of which may be
      absent (a null reference in the source). */
  datatype Event =
    | CreateObject(target: Option<Handle>, name: Option<Text>)
    | SetProperty(target: Option<Handle>, name: Option<Text>, value: Elem)
    | CreateArray(target: Option<Handle>, name: Option<Text>)
    | AddElement(list: Handle, element: Elem)
  {
    predicate IsCreate() {
      CreateObject? || CreateArray?
    }
  }
}
