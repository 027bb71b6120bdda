/** The collection mapper on the trace the decoder issues for a value: it
    rebuilds that value, and leaves every container that existed before as
    it was. */
module BuildRoundTrip {
  import opened Results
  import opened Chars
  import opened Values
  import opened ObjectMapper
  import opened CollectionMapper
  import opened TokenWalk
  import opened DecodeRoundTrip

  /** The containers after replaying a whole trace from an empty heap. */
  function HeapOf(tr: seq<Event>): (r: Result<Heap, MapperError>)
    ensures r.Success? ==> Fresh(r.value, |tr|)
  {
    Replay(map[], tr, 0)
  }

  /** Replaying one more call: a trace that failed stays failed, and otherwise
      the call is applied, with the next handle, to the containers so far. */
  lemma ReplaySnoc(tr: seq<Event>, e: Event)
    ensures HeapOf(tr).Failure? ==> HeapOf(tr + [e]) == HeapOf(tr)
    ensures HeapOf(tr).Success? ==> HeapOf(tr + [e]) == Apply(HeapOf(tr).value, |tr|, e)
  {
    ReplayAppend(map[], tr, [e], 0, |tr|);
    if HeapOf(tr).Success? {
      var r := Apply(HeapOf(tr).value, |tr|, e);
      if r.Success? {
        assert Replay(r.value, [e][1..], |tr| + 1) == Success(r.value);
      }
    }
  }

  /** Every container of `h0` is in `h1`, unchanged. */
  predicate Keeps(h0: Heap, h1: Heap) {
    forall k | k in h0 :: k in h1 && h1[k] == h0[k]
  }

  /** Replaying the calls the decoder issues for a decodable value, after a
      trace that replays, succeeds, keeps every existing container and
      rebuilds the value. */
  lemma {:induction false} EmitBuilds(v: Value, target: Option<Handle>, name: Option<Text>, tr: seq<Event>)
    requires Decodable(v) && HeapOf(tr).Success?
    ensures HeapOf(Emit(v, target, name, tr)).Success?
    ensures Keeps(HeapOf(tr).value, HeapOf(Emit(v, target, name, tr)).value)
    ensures Resolve(HeapOf(Emit(v, target, name, tr)).value, ElemFor(v, |tr|)) == Success(v)
    decreases v
  {
    match v
    case Table(es) =>
      var tr1 := tr + [CreateObject(target, name)];
      ReplaySnoc(tr, CreateObject(target, name));
      assert [] + es == es;
      MembersBuild(es, |tr|, tr1, v, []);
    case List(xs) =>
      var tr1 := tr + [CreateArray(target, name)];
      ReplaySnoc(tr, CreateArray(target, name));
      assert [] + xs == xs;
      ItemsBuild(xs, |tr|, tr1, v, []);
    case _ =>
  }

  /** A key that comes after `done` in a sequence of distinct keys is not
      among the keys of `done`. */
  lemma NotYetSet(done: seq<(Text, Value)>, es: seq<(Text, Value)>)
    requires |es| > 0 && DistinctKeys(done + es)
    ensures !HasKey(done, es[0].0)
  {
    forall i | 0 <= i < |done| ensures done[i].0 != es[0].0 {
      assert (done + es)[i] == done[i] && (done + es)[|done|] == es[0];
    }
  }

  /** Replaying the calls for the entries `es` of the table `h`, which holds
      `done` so far, appends them to it and keeps every other container. */
  lemma {:induction false} MembersBuild(es: seq<(Text, Value)>, h: Handle, tr: seq<Event>, owner: Value, done: seq<(Text, Value)>)
    requires forall k | 0 <= k < |es| :: es[k].1 < owner && Decodable(es[k].1)
    requires HeapOf(tr).Success? && h in HeapOf(tr).value && HeapOf(tr).value[h] == Table(done)
    requires DistinctKeys(done + es)
    ensures HeapOf(EmitMembers(es, h, tr, owner)).Success?
    ensures h in HeapOf(EmitMembers(es, h, tr, owner)).value
    ensures HeapOf(EmitMembers(es, h, tr, owner)).value[h] == Table(done + es)
    ensures forall k | k in HeapOf(tr).value && k != h ::
      k in HeapOf(EmitMembers(es, h, tr, owner)).value
      && HeapOf(EmitMembers(es, h, tr, owner)).value[k] == HeapOf(tr).value[k]
    decreases owner, |es|
  {
    if |es| == 0 {
      assert done + es == done;
    } else {
      var key, v0 := es[0].0, es[0].1;
      var after := Emit(v0, Some(h), Some(key), tr);
      EmitBuilds(v0, Some(h), Some(key), tr);
      NotYetSet(done, es);
      var e := SetProperty(Some(h), Some(key), ElemFor(v0, |tr|));
      ReplaySnoc(after, e);
      assert done + [es[0]] + es[1..] == done + es;
      MembersBuild(es[1..], h, after + [e], owner, done + [es[0]]);
    }
  }

  /** Replaying the calls for the items `xs` of the list `h`, which holds
      `done` so far, appends them to it and keeps every other container. */
  lemma {:induction false} ItemsBuild(xs: seq<Value>, h: Handle, tr: seq<Event>, owner: Value, done: seq<Value>)
    requires forall k | 0 <= k < |xs| :: xs[k] < owner && Decodable(xs[k])
    requires HeapOf(tr).Success? && h in HeapOf(tr).value && HeapOf(tr).value[h] == List(done)
    ensures HeapOf(EmitItems(xs, h, tr, owner)).Success?
    ensures h in HeapOf(EmitItems(xs, h, tr, owner)).value
    ensures HeapOf(EmitItems(xs, h, tr, owner)).value[h] == List(done + xs)
    ensures forall k | k in HeapOf(tr).value && k != h ::
      k in HeapOf(EmitItems(xs, h, tr, owner)).value
      && HeapOf(EmitItems(xs, h, tr, owner)).value[k] == HeapOf(tr).value[k]
    decreases owner, |xs|
  {
    if |xs| == 0 {
      assert done + xs == done;
    } else {
      var after := Emit(xs[0], Some(h), None, tr);
      EmitBuilds(xs[0], Some(h), None, tr);
      var e := AddElement(h, ElemFor(xs[0], |tr|));
      ReplaySnoc(after, e);
      assert done + [xs[0]] + xs[1..] == done + xs;
      ItemsBuild(xs[1..], h, after + [e], owner, done + [xs[0]]);
    }
  }
}
