/** The generic mapper: every object becomes a table and every array a list.
    The containers built so far live in a heap indexed by handle. A child
    container is attached by value; the decoder never addresses a container
    again once it has been attached, so sharing and copying agree. */
module CollectionMapper {
  import opened Results
  import opened Chars
  import opened Values
  import opened ObjectMapper

  type Heap = map<Handle, Value>

  /** Why a mapper call fails. A duplicate key is `Hashtable.Add` rejecting
      a key already present; a null key is `Hashtable.Add` rejecting a null
      name; an invalid target is a null target or the cast of the target to
      a table or list failing; an unknown element names no container. */
  datatype MapperError = DuplicateKey(key: Text) | NullKey | InvalidTarget | UnknownElement

  /** Every handle in `heap` is below `next`, so `next` is unused. */
  predicate Fresh(heap: Heap, next: Handle) {
    forall h | h in heap :: h < next
  }

  /** The value an element stands for. */
  function Resolve(heap: Heap, e: Elem): (r: Result<Value, MapperError>)
    ensures e.Lit? ==> r == Success(e.v)
    ensures e.Obj? && e.h in heap ==> r == Success(heap[e.h])
    ensures e.Obj? && e.h !in heap ==> r == Failure(UnknownElement)
  {
    match e
    case Lit(v) => Success(v)
    case Obj(h) => if h in heap then Success(heap[h]) else Failure(UnknownElement)
  }

  /** A fresh, empty table under the unused handle `h`, whatever the target
      and property name; nothing else in the heap changes. */
  function CreateObject(heap: Heap, h: Handle, target: Option<Handle>, name: Option<Text>): (r: Heap)
    requires h !in heap
    ensures r.Keys == heap.Keys + {h}
    ensures r[h] == Table([])
    ensures forall k | k in heap :: r[k] == heap[k]
  {
    heap[h := Table([])]
  }

  /** A fresh, empty list under the unused handle `h`, whatever the target
      and property name; nothing else in the heap changes. */
  function CreateArray(heap: Heap, h: Handle, target: Option<Handle>, name: Option<Text>): (r: Heap)
    requires h !in heap
    ensures r.Keys == heap.Keys + {h}
    ensures r[h] == List([])
    ensures forall k | k in heap :: r[k] == heap[k]
  {
    heap[h := List([])]
  }

  /** The table `target` holds an entry for `key`. */
  predicate TableHasKey(heap: Heap, target: Handle, key: Text) {
    target in heap && heap[target].Table? && HasKey(heap[target].entries, key)
  }

  /** `Hashtable.Add(name, value)` on the table `target`: the entry is
      appended verbatim; a missing or non-table target, a null name and a
      key already present are errors. Only the target changes. */
  function SetProperty(heap: Heap, target: Option<Handle>, name: Option<Text>, value: Elem)
    : (r: Result<Heap, MapperError>)
    ensures r.Success? <==>
      && target.Some? && target.value in heap && heap[target.value].Table?
      && name.Some? && !HasKey(heap[target.value].entries, name.value)
      && Resolve(heap, value).Success?
    ensures (target.None? || target.value !in heap || !heap[target.value].Table?) ==> r == Failure(InvalidTarget)
    ensures target.Some? && name.Some? && TableHasKey(heap, target.value, name.value) ==>
      r == Failure(DuplicateKey(name.value))
    ensures r.Success? ==>
      && r.value.Keys == heap.Keys
      && r.value[target.value]
         == Table(heap[target.value].entries + [(name.value, Resolve(heap, value).value)])
      && forall k | k in heap && k != target.value :: r.value[k] == heap[k]
  {
    if target.None? || target.value !in heap || !heap[target.value].Table? then Failure(InvalidTarget)
    else if name.None? then Failure(NullKey)
    else
      var t, key := target.value, name.value;
      if HasKey(heap[t].entries, key) then Failure(DuplicateKey(key))
      else
        var v :- Resolve(heap, value);
        Success(heap[t := Table(heap[t].entries + [(key, v)])])
  }

  /** `ArrayList.Add(element)` on the list `list`: the element is appended
      verbatim at the end; a missing or non-list target is an error. Only
      the target changes. */
  function AddElement(heap: Heap, list: Handle, element: Elem): (r: Result<Heap, MapperError>)
    ensures r.Success? <==> list in heap && heap[list].List? && Resolve(heap, element).Success?
    ensures (list !in heap || !heap[list].List?) ==> r == Failure(InvalidTarget)
    ensures r.Success? ==>
      && r.value.Keys == heap.Keys
      && r.value[list] == List(heap[list].items + [Resolve(heap, element).value])
      && forall k | k in heap && k != list :: r.value[k] == heap[k]
  {
    if list !in heap || !heap[list].List? then Failure(InvalidTarget)
    else
      var v :- Resolve(heap, element);
      Success(heap[list := List(heap[list].items + [v])])
  }

  /** One mapper call, issued as the event with handle `h`. */
  function Apply(heap: Heap, h: Handle, e: Event): (r: Result<Heap, MapperError>)
    requires Fresh(heap, h)
    ensures r.Success? ==> Fresh(r.value, h + 1)
    ensures r.Success? ==> heap.Keys <= r.value.Keys
    ensures r.Success? && !e.IsCreate() ==> r.value.Keys == heap.Keys
    ensures r.Failure? ==> !e.IsCreate()
  {
    match e
    case CreateObject(target, name) => Success(CreateObject(heap, h, target, name))
    case CreateArray(target, name) => Success(CreateArray(heap, h, target, name))
    case SetProperty(target, name, value) => SetProperty(heap, target, name, value)
    case AddElement(list, element) => AddElement(heap, list, element)
  }

  /** The mapper calls of `events`, in order, the first with handle `next`;
      the first failing call stops the replay. */
  function Replay(heap: Heap, events: seq<Event>, next: Handle): (r: Result<Heap, MapperError>)
    requires Fresh(heap, next)
    ensures r.Success? ==> Fresh(r.value, next + |events|) && heap.Keys <= r.value.Keys
    decreases |events|
  {
    if |events| == 0 then Success(heap)
    else
      var heap' :- Apply(heap, next, events[0]);
      Replay(heap', events[1..], next + 1)
  }

  /** Replaying two runs of events one after the other is replaying their
      concatenation: a failure in the first run is the failure of the whole,
      and otherwise the second run starts, with handle `mid`, from the heap
      the first one left. */
  lemma {:induction false} ReplayAppend(heap: Heap, a: seq<Event>, b: seq<Event>, next: Handle, mid: Handle)
    requires Fresh(heap, next) && mid == next + |a|
    ensures Replay(heap, a, next).Failure? ==> Replay(heap, a + b, next) == Replay(heap, a, next)
    ensures Replay(heap, a, next).Success? ==>
      Replay(heap, a + b, next) == Replay(Replay(heap, a, next).value, b, mid)
    decreases |a|
  {
    if |a| == 0 {
      assert a + b == b;
    } else {
      assert (a + b)[0] == a[0];
      assert (a + b)[1..] == a[1..] + b;
      var r := Apply(heap, next, a[0]);
      if r.Success? {
        ReplayAppend(r.value, a[1..], b, next + 1, mid);
      }
    }
  }
}
