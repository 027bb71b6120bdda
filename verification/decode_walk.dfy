/** The decoder on the tokens of a value: it succeeds, consumes exactly those
    tokens, leaves the context as it found it, and issues a mapper trace that
    depends only on the value and the context. */
module DecodeRoundTrip {
  import opened Results
  import opened Chars
  import opened Values
  import opened Tokens
  import opened ObjectMapper
  import opened Decoder
  import opened TokenWalk

  /** What the decoder hands to the mapper for `v`, when the trace so far has
      `h` calls: a container is the one its create call, the next call,
      returns; anything else is its own value. */
  function ElemFor(v: Value, h: Handle): (e: Elem)
    ensures e.Obj? <==> v.Table? || v.List?
  {
    if v.Table? || v.List? then Obj(h) else Lit(v)
  }

  /** The trace `tr` extended with the mapper calls that building `v` issues
      in the context (`target`, `name`): a primitive issues none; a table
      issues its create call, then for each entry the calls of its value in
      the context (table, key) followed by the setting of the entry; a list
      issues its create call, then for each item the calls of the item in the
      context (list, no name) followed by the appending of the item. */
  function Emit(v: Value, target: Option<Handle>, name: Option<Text>, tr: seq<Event>): seq<Event>
    decreases v
  {
    match v
    case Table(es) => EmitMembers(es, |tr|, tr + [CreateObject(target, name)], v)
    case List(xs) => EmitItems(xs, |tr|, tr + [CreateArray(target, name)], v)
    case _ => tr
  }

  function EmitMembers(es: seq<(Text, Value)>, h: Handle, tr: seq<Event>, ghost owner: Value): seq<Event>
    requires forall k | 0 <= k < |es| :: es[k].1 < owner
    decreases owner, |es|
  {
    if |es| == 0 then tr
    else
      var after := Emit(es[0].1, Some(h), Some(es[0].0), tr);
      EmitMembers(es[1..], h, after + [SetProperty(Some(h), Some(es[0].0), ElemFor(es[0].1, |tr|))], owner)
  }

  function EmitItems(xs: seq<Value>, h: Handle, tr: seq<Event>, ghost owner: Value): seq<Event>
    requires forall k | 0 <= k < |xs| :: xs[k] < owner
    decreases owner, |xs|
  {
    if |xs| == 0 then tr
    else
      var after := Emit(xs[0], Some(h), None, tr);
      EmitItems(xs[1..], h, after + [AddElement(h, ElemFor(xs[0], |tr|))], owner)
  }

  /** Decoding an element whose first token `tok` was read at `p`, when the
      reader yields the tokens of `v` from `p` up to `q`: the element is `v`
      (or the container created for it), the cursor ends at `q`, the context
      is unchanged and the trace grows by the calls of `v`. */
  lemma {:induction false} DecodeElementWalk(read: Reader, n: nat, d: Decoder, p: nat, tok: Token, v: Value, q: nat)
    requires ValidReader(read, n) && d.cur <= n
    requires read(p) == Success((tok, d.cur)) && Walk(read, p, v) == Some(q)
    ensures DecodeElement(read, n, d, tok)
         == Ok(ElemFor(v, |d.trace|), d.(cur := q, trace := Emit(v, d.target, d.name, d.trace)))
    decreases v
  {
    match v
    case Table(es) =>
      var inner := Decoder(d.cur, d.trace + [CreateObject(d.target, d.name)], Some(|d.trace|), d.name);
      MembersWalk(read, n, inner, es, v, q);
    case List(xs) =>
      var inner := Decoder(d.cur, d.trace + [CreateArray(d.target, d.name)], Some(|d.trace|), None);
      ItemsWalk(read, n, inner, xs, v, |d.trace|, q);
    case Record(_, _) =>
    case _ =>
      assert d.(cur := q, trace := d.trace) == d;
  }

  /** Decoding the members of a table whose tokens the reader yields up to
      `q` consumes exactly them and issues their calls. */
  lemma {:induction false} MembersWalk(read: Reader, n: nat, d: Decoder, es: seq<(Text, Value)>, owner: Value, q: nat)
    requires ValidReader(read, n) && d.cur <= n && d.target.Some?
    requires forall k | 0 <= k < |es| :: es[k].1 < owner
    requires WalkMembers(read, d.cur, es, owner) == Some(q)
    ensures ObjectMembers(read, n, d).Ok?
    ensures ObjectMembers(read, n, d).d.cur == q
    ensures ObjectMembers(read, n, d).d.trace == EmitMembers(es, d.target.value, d.trace, owner)
    decreases owner, |es|
  {
    if |es| > 0 {
      var p1 := read(d.cur).value.1;
      var d1 := d.(cur := p1, name := Some(es[0].0));
      var p2 := read(p1).value.1;
      var (tok, p3) := read(p2).value;
      var q0 := Walk(read, p2, es[0].1).value;
      DecodeElementWalk(read, n, d1.(cur := p3), p2, tok, es[0].1, q0);
      var d3 := Decoder(q0, Emit(es[0].1, d.target, Some(es[0].0), d.trace)
                            + [SetProperty(d.target, Some(es[0].0), ElemFor(es[0].1, |d.trace|))], d.target, d1.name);
      if |es| > 1 {
        var p4 := read(q0).value.1;
        MembersWalk(read, n, d3.(cur := p4), es[1..], owner, q);
      }
    }
  }

  /** Decoding the items of the list `list` whose tokens the reader yields up
      to `q` consumes exactly them and issues their calls. */
  lemma {:induction false} ItemsWalk(read: Reader, n: nat, d: Decoder, xs: seq<Value>, owner: Value, list: Handle, q: nat)
    requires ValidReader(read, n) && d.cur <= n && d.target == Some(list) && d.name.None?
    requires forall k | 0 <= k < |xs| :: xs[k] < owner
    requires WalkItems(read, d.cur, xs, owner) == Some(q)
    ensures ArrayElements(read, n, d, list).Ok?
    ensures ArrayElements(read, n, d, list).d.cur == q
    ensures ArrayElements(read, n, d, list).d.trace == EmitItems(xs, list, d.trace, owner)
    decreases owner, |xs|
  {
    if |xs| > 0 {
      var (tok, p1) := read(d.cur).value;
      var q0 := Walk(read, d.cur, xs[0]).value;
      DecodeElementWalk(read, n, d.(cur := p1), d.cur, tok, xs[0], q0);
      var d3 := Decoder(q0, Emit(xs[0], d.target, None, d.trace) + [AddElement(list, ElemFor(xs[0], |d.trace|))],
                        d.target, None);
      if |xs| > 1 {
        var p2 := read(q0).value.1;
        ItemsWalk(read, n, d3.(cur := p2), xs[1..], owner, list, q);
      }
    }
  }
}
