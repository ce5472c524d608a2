/** The cycle-safe deep copy behind the audit trail: JavaScript objects as mutable nodes of a graph
    that may share and loop. */
module AuditEvent {

  datatype Kind = ArrayKind | MapKind | SetKind | PlainKind

  datatype Value = Primitive(text: string) | Ref(target: JsObject)

  /** One entry of a container: an array item under its index, a set element under itself. */
  datatype Slot = Slot(key: Value, item: Value)

  class JsObject {
    const kind: Kind
    var slots: seq<Slot>
    var frozen: bool

    constructor (kind: Kind)
      ensures this.kind == kind && slots == [] && !frozen
    {
      this.kind, slots, frozen := kind, [], false;
    }

    /** Pushes, sets or adds one entry. Assigning "__proto__" on a plain object reaches the
        prototype and leaves no entry; a frozen array or plain object takes no entry at all. */
    method Put(key: Value, item: Value)
      modifies `slots
      ensures slots == if frozen && kind in {ArrayKind, PlainKind} then old(slots)
                       else PutSlot(kind, old(slots), key, item)
    {
      if frozen && kind in {ArrayKind, PlainKind} {
        return;
      }
      slots := PutSlot(kind, slots, key, item);
    }
  }

  function KeyIndex(slots: seq<Slot>, key: Value): (i: nat)
    ensures i <= |slots|
    ensures i < |slots| ==> slots[i].key == key
    ensures forall j :: 0 <= j < i ==> slots[j].key != key
  {
    if slots == [] || slots[0].key == key then 0 else 1 + KeyIndex(slots[1..], key)
  }

  predicate IsPrototypeField(kind: Kind, key: Value) {
    kind == PlainKind && key == Primitive("__proto__")
  }

  function PutSlot(kind: Kind, slots: seq<Slot>, key: Value, item: Value): seq<Slot> {
    if IsPrototypeField(kind, key) then slots
    else if kind == ArrayKind || KeyIndex(slots, key) == |slots| then slots + [Slot(key, item)]
    else slots[KeyIndex(slots, key) := Slot(key, item)]
  }

  /** What an entry holds once it is put; the other entries keep their places. */
  lemma PutHolds(kind: Kind, slots: seq<Slot>, key: Value, item: Value)
    requires !IsPrototypeField(kind, key)
    ensures var after := PutSlot(kind, slots, key, item);
            && (exists i :: 0 <= i < |after| && after[i] == Slot(key, item))
            && (forall i :: 0 <= i < |slots| ==>
                 i < |after| && after[i] == if kind != ArrayKind && KeyIndex(slots, key) == i then Slot(key, item)
                                            else slots[i])
            && |after| == |slots| + if kind == ArrayKind || KeyIndex(slots, key) == |slots| then 1 else 0
  {
    var after, i := PutSlot(kind, slots, key, item), KeyIndex(slots, key);
    assert after[if kind == ArrayKind then |slots| else i] == Slot(key, item);
  }

  // ----- Graphs -----

  predicate PointsInto(v: Value, nodes: set<JsObject>) {
    v.Ref? ==> v.target in nodes
  }

  predicate SlotsPointInto(slots: seq<Slot>, nodes: set<JsObject>) {
    forall i :: 0 <= i < |slots| ==> PointsInto(slots[i].key, nodes) && PointsInto(slots[i].item, nodes)
  }

  predicate DistinctKeys(kind: Kind, slots: seq<Slot>) {
    kind != ArrayKind ==> forall i, j :: 0 <= i < j < |slots| ==> slots[i].key != slots[j].key
  }

  /** A finite set of objects that holds everything its members refer to. */
  ghost predicate Closed(nodes: set<JsObject>)
    reads nodes`slots
  {
    forall o :: o in nodes ==> SlotsPointInto(o.slots, nodes) && DistinctKeys(o.kind, o.slots)
  }

  ghost predicate Injective(m: map<JsObject, JsObject>) {
    forall a, b :: a in m && b in m && a != b ==> m[a] != m[b]
  }

  function Image(m: map<JsObject, JsObject>, v: Value): Value
    requires PointsInto(v, m.Keys)
  {
    if v.Ref? then Ref(m[v.target]) else v
  }

  /** The copies of the entries that a copy keeps. */
  function ImageSlots(m: map<JsObject, JsObject>, kind: Kind, slots: seq<Slot>): seq<Slot>
    requires SlotsPointInto(slots, m.Keys)
  {
    if slots == [] then []
    else
      var init, last := slots[..|slots| - 1], slots[|slots| - 1];
      ImageSlots(m, kind, init) +
      (if IsPrototypeField(kind, last.key) then [] else [Slot(Image(m, last.key), Image(m, last.item))])
  }

  /** The node has been copied completely: same kind, and the copies of its entries in order. */
  ghost predicate Copied(m: map<JsObject, JsObject>, o: JsObject)
    requires o in m
    reads {o, m[o]}`slots
  {
    && m[o].kind == o.kind
    && SlotsPointInto(o.slots, m.Keys)
    && m[o].slots == ImageSlots(m, o.kind, o.slots)
  }

  ghost predicate Extends(m: map<JsObject, JsObject>, m': map<JsObject, JsObject>) {
    m.Keys <= m'.Keys && forall o :: o in m ==> m'[o] == m[o]
  }

  lemma {:induction false} ImageSlotsExtend(m: map<JsObject, JsObject>, m': map<JsObject, JsObject>, kind: Kind,
                                            slots: seq<Slot>)
    requires Extends(m, m') && SlotsPointInto(slots, m.Keys)
    ensures SlotsPointInto(slots, m'.Keys) && ImageSlots(m', kind, slots) == ImageSlots(m, kind, slots)
    decreases |slots|
  {
    if slots != [] {
      ImageSlotsExtend(m, m', kind, slots[..|slots| - 1]);
    }
  }

  lemma {:induction false} ImageSlotsKey(m: map<JsObject, JsObject>, kind: Kind, slots: seq<Slot>, i: nat)
    requires SlotsPointInto(slots, m.Keys) && i < |ImageSlots(m, kind, slots)|
    ensures exists j :: 0 <= j < |slots| && ImageSlots(m, kind, slots)[i].key == Image(m, slots[j].key)
    decreases |slots|
  {
    var init := slots[..|slots| - 1];
    if i < |ImageSlots(m, kind, init)| {
      ImageSlotsKey(m, kind, init, i);
    }
  }

  /** Copying one more entry appends its copy: distinct keys have distinct copies. */
  lemma PutImage(m: map<JsObject, JsObject>, kind: Kind, slots: seq<Slot>, n: nat)
    requires Injective(m) && n < |slots| && SlotsPointInto(slots[..n + 1], m.Keys) && DistinctKeys(kind, slots)
    ensures SlotsPointInto(slots[..n], m.Keys)
    ensures PutSlot(kind, ImageSlots(m, kind, slots[..n]), Image(m, slots[n].key), Image(m, slots[n].item))
         == ImageSlots(m, kind, slots[..n + 1])
  {
    var done := slots[..n];
    assert slots[..n + 1][..n] == done && slots[..n + 1][n] == slots[n];
    forall i | 0 <= i < |done| ensures PointsInto(done[i].key, m.Keys) && PointsInto(done[i].item, m.Keys) {
      assert done[i] == slots[..n + 1][i];
    }
    var image, key := ImageSlots(m, kind, done), Image(m, slots[n].key);
    if kind != ArrayKind {
      forall i | 0 <= i < |image| ensures image[i].key != key {
        ImageSlotsKey(m, kind, done, i);
        var j :| 0 <= j < |done| && image[i].key == Image(m, done[j].key);
        assert done[j].key != slots[n].key;
      }
    }
  }

  lemma CopiedExtends(m: map<JsObject, JsObject>, m': map<JsObject, JsObject>, o: JsObject)
    requires Extends(m, m') && o in m && Copied(m, o)
    ensures o in m' && Copied(m', o)
  {
    ImageSlotsExtend(m, m', o.kind, o.slots);
  }

  // ----- The copy -----

  /** A partial copy of the graph: injective, and onto objects outside it. */
  ghost predicate IsCopyMap(m: map<JsObject, JsObject>, nodes: set<JsObject>) {
    m.Keys <= nodes && m.Values !! nodes && Injective(m)
  }

  lemma ExtendsTrans(a: map<JsObject, JsObject>, b: map<JsObject, JsObject>, c: map<JsObject, JsObject>)
    requires Extends(a, b) && Extends(b, c)
    ensures Extends(a, c)
  {
  }

  lemma StartCopy(seen: map<JsObject, JsObject>, nodes: set<JsObject>, source: JsObject, copy: JsObject)
    requires IsCopyMap(seen, nodes) && source in nodes && source !in seen && copy !in nodes && copy !in seen.Values
    ensures var m := seen[source := copy];
            && Extends(seen, m) && IsCopyMap(m, nodes)
            && m.Values == seen.Values + {copy}
  {
    var m := seen[source := copy];
    forall v | v in m.Values ensures v in seen.Values + {copy} {
      var o: JsObject :| o in m && m[o] == v;
    }
    forall v | v in seen.Values + {copy} ensures v in m.Values {
      if v in seen.Values {
        var o: JsObject :| o in seen && seen[o] == v;
        assert m[o] == v;
      } else {
        assert m[source] == v;
      }
    }
  }

  lemma CopyIsComplete(m: map<JsObject, JsObject>, o: JsObject)
    requires o in m && m[o].kind == o.kind && SlotsPointInto(o.slots, m.Keys)
    requires m[o].slots == ImageSlots(m, o.kind, o.slots)
    ensures Copied(m, o)
  {
  }

  /** Copies a value and everything it reaches that "seen" has not copied yet. Nothing that existed
      before is written; shared and cyclic references are preserved by the returned map. */
  method CloneValue(value: Value, seen: map<JsObject, JsObject>, ghost nodes: set<JsObject>)
    returns (clone: Value, seen': map<JsObject, JsObject>)
    requires Closed(nodes) && PointsInto(value, nodes) && IsCopyMap(seen, nodes)
    ensures Extends(seen, seen') && IsCopyMap(seen', nodes) && fresh(seen'.Values - seen.Values)
    ensures PointsInto(value, seen'.Keys) && clone == Image(seen', value)
    ensures forall o :: o in seen'.Keys - seen.Keys ==> Copied(seen', o)
    decreases nodes - seen.Keys, 0
  {
    hide Copied, Injective, Closed;
    if value.Primitive? {
      return value, seen;
    }
    var source := value.target;
    if source in seen {
      return Ref(seen[source]), seen;
    }
    var copy := new JsObject(source.kind);
    StartCopy(seen, nodes, source, copy);
    seen' := FillCopy(source, copy, seen[source := copy], nodes);
    return Ref(copy), seen';
  }

  /** Copies the entries of "source" into its fresh, empty copy. */
  method FillCopy(source: JsObject, copy: JsObject, seen: map<JsObject, JsObject>, ghost nodes: set<JsObject>)
    returns (seen': map<JsObject, JsObject>)
    requires Closed(nodes) && IsCopyMap(seen, nodes) && source in seen && seen[source] == copy
    requires copy.kind == source.kind && copy.slots == [] && !copy.frozen
    modifies copy`slots
    ensures Extends(seen, seen') && IsCopyMap(seen', nodes) && fresh(seen'.Values - seen.Values)
    ensures Copied(seen', source)
    ensures forall o :: o in seen'.Keys - seen.Keys ==> Copied(seen', o)
    decreases nodes - seen.Keys, 2
  {
    hide Copied, Injective, Closed;
    SourceShape(nodes, source);
    assert source != copy by {
      assert seen[source] in seen.Values;
    }
    seen' := seen;
    for n := 0 to |source.slots|
      invariant Extends(seen, seen') && IsCopyMap(seen', nodes) && fresh(seen'.Values - seen.Values)
      invariant Closed(nodes) && source.slots == old(source.slots) && !copy.frozen
      invariant SlotsPointInto(source.slots[..n], seen'.Keys)
      invariant copy.slots == ImageSlots(seen', source.kind, source.slots[..n])
      invariant forall o :: o in seen'.Keys - seen.Keys ==> Copied(seen', o)
    {
      ghost var before := seen';
      var key, item;
      key, item, seen' := CloneSlot(source.slots[n], seen', nodes);
      ExtendsTrans(seen, before, seen');
      assert source.slots[..n + 1] == source.slots[..n] + [source.slots[n]];
      ImageSlotsExtend(before, seen', source.kind, source.slots[..n]);
      PutImage(seen', source.kind, source.slots, n);
      CopiedStays(before, seen', seen.Keys);
      PutCopy(copy, key, item, seen', source, nodes, seen.Keys);
    }
    assert source.slots[..|source.slots|] == source.slots;
    CopyIsComplete(seen', source);
  }

  lemma SourceShape(nodes: set<JsObject>, o: JsObject)
    requires Closed(nodes) && o in nodes
    ensures SlotsPointInto(o.slots, nodes) && DistinctKeys(o.kind, o.slots)
  {
  }

  /** Copies the key and the item of one entry. */
  method CloneSlot(slot: Slot, seen: map<JsObject, JsObject>, ghost nodes: set<JsObject>)
    returns (key: Value, item: Value, seen': map<JsObject, JsObject>)
    requires Closed(nodes) && PointsInto(slot.key, nodes) && PointsInto(slot.item, nodes) && IsCopyMap(seen, nodes)
    ensures Extends(seen, seen') && IsCopyMap(seen', nodes) && fresh(seen'.Values - seen.Values)
    ensures PointsInto(slot.key, seen'.Keys) && PointsInto(slot.item, seen'.Keys)
    ensures key == Image(seen', slot.key) && item == Image(seen', slot.item)
    ensures forall o :: o in seen'.Keys - seen.Keys ==> Copied(seen', o)
    decreases nodes - seen.Keys, 1
  {
    hide Copied, Injective;
    key, seen' := CloneValue(slot.key, seen, nodes);
    ghost var between := seen';
    item, seen' := CloneValue(slot.item, seen', nodes);
    CopiedStays(between, seen', seen.Keys);
  }

  /** Copies completed under a smaller map are complete under a larger one. */
  lemma CopiedStays(m: map<JsObject, JsObject>, m': map<JsObject, JsObject>, except: set<JsObject>)
    requires Extends(m, m')
    requires forall o :: o in m.Keys - except ==> Copied(m, o)
    requires forall o :: o in m'.Keys - m.Keys ==> Copied(m', o)
    ensures forall o :: o in m'.Keys - except ==> Copied(m', o)
  {
    hide Copied;
    forall o | o in m'.Keys - except ensures Copied(m', o) {
      if o in m {
        CopiedExtends(m, m', o);
      }
    }
  }

  /** Writing one copy leaves the other copies complete. */
  method PutCopy(copy: JsObject, key: Value, item: Value, ghost m: map<JsObject, JsObject>, ghost source: JsObject,
                 ghost nodes: set<JsObject>, ghost except: set<JsObject>)
    requires source in m && m[source] == copy && source in except && IsCopyMap(m, nodes) && !copy.frozen
    requires forall o :: o in m.Keys - except ==> Copied(m, o)
    modifies copy`slots
    ensures copy.slots == PutSlot(copy.kind, old(copy.slots), key, item)
    ensures old(Closed(nodes)) ==> Closed(nodes)
    ensures forall o :: o in m.Keys - except ==> Copied(m, o)
  {
    forall o | o in m.Keys - except ensures m[o] != copy && o != copy {
      assert m[source] in m.Values;
    }
    copy.Put(key, item);
  }

  /** A copy has an entry for every entry of its source, in order, exactly when the source is not a
      plain object with an entry called "__proto__". */
  lemma {:induction false} CopyIsExactWithoutPrototypeField(m: map<JsObject, JsObject>, kind: Kind, slots: seq<Slot>)
    requires SlotsPointInto(slots, m.Keys)
    ensures |ImageSlots(m, kind, slots)| <= |slots|
    ensures |ImageSlots(m, kind, slots)| == |slots| <==>
      forall i :: 0 <= i < |slots| ==> !IsPrototypeField(kind, slots[i].key)
    ensures |ImageSlots(m, kind, slots)| == |slots| ==>
      forall i :: 0 <= i < |slots| ==>
        ImageSlots(m, kind, slots)[i] == Slot(Image(m, slots[i].key), Image(m, slots[i].item))
    decreases |slots|
  {
    if slots != [] {
      var init := slots[..|slots| - 1];
      CopyIsExactWithoutPrototypeField(m, kind, init);
      assert forall i :: 0 <= i < |init| ==> init[i] == slots[i];
    }
  }

  lemma PrototypeFieldIsLost(item: string)
    ensures ImageSlots(map[], PlainKind, [Slot(Primitive("__proto__"), Primitive(item))]) == []
  {
  }

  // ----- Freezing -----

  /** Freezes everything the value reaches that "seen" does not hold yet. */
  method FreezeValue(value: Value, seen: set<JsObject>, ghost nodes: set<JsObject>) returns (seen': set<JsObject>)
    requires Closed(nodes) && PointsInto(value, nodes) && seen <= nodes
    modifies nodes`frozen
    ensures seen <= seen' <= nodes && PointsInto(value, seen')
    ensures forall o :: o in seen' - seen ==> o.frozen && SlotsPointInto(o.slots, seen')
    ensures forall o :: o in nodes && old(o.frozen) ==> o.frozen
    decreases nodes - seen
  {
    if value.Primitive? || value.target in seen {
      return seen;
    }
    var source := value.target;
    seen' := seen + {source};
    for n := 0 to |source.slots|
      invariant seen + {source} <= seen' <= nodes && SlotsPointInto(source.slots[..n], seen')
      invariant forall o :: o in seen' - seen - {source} ==> o.frozen && SlotsPointInto(o.slots, seen')
      invariant forall o :: o in nodes && old(o.frozen) ==> o.frozen
    {
      ghost var before := seen';
      seen' := FreezeValue(source.slots[n].key, seen', nodes);
      ghost var between := seen';
      seen' := FreezeValue(source.slots[n].item, seen', nodes);
      PointsStay(source.slots[..n], before, seen');
      forall o | o in seen' - seen - {source} ensures o.frozen && SlotsPointInto(o.slots, seen') {
        if o in before {
          PointsStay(o.slots, before, seen');
        } else if o in between {
          PointsStay(o.slots, between, seen');
        }
      }
      assert source.slots[..n + 1] == source.slots[..n] + [source.slots[n]];
    }
    assert source.slots[..|source.slots|] == source.slots;
    source.frozen := true;
  }

  lemma PointsStay(slots: seq<Slot>, a: set<JsObject>, b: set<JsObject>)
    requires SlotsPointInto(slots, a) && a <= b
    ensures SlotsPointInto(slots, b)
  {
  }

  // ----- The trail -----

  /** "copy" is the root of a complete copy of what "value" reaches, entry by entry as "slotsOf"
      recorded them. */
  ghost predicate IsCopyOf(copy: Value, value: Value, m: map<JsObject, JsObject>, slotsOf: map<JsObject, seq<Slot>>)
    reads m.Values`slots
  {
    && Injective(m) && slotsOf.Keys == m.Keys
    && PointsInto(value, m.Keys) && copy == Image(m, value)
    && forall o :: o in m ==>
         && m[o].kind == o.kind && SlotsPointInto(slotsOf[o], m.Keys)
         && m[o].slots == ImageSlots(m, o.kind, slotsOf[o])
  }

  ghost function SlotsOf(nodes: set<JsObject>): map<JsObject, seq<Slot>>
    reads nodes`slots
  {
    map o | o in nodes :: o.slots
  }

  lemma {:induction false} ImageSlotsShape(m: map<JsObject, JsObject>, kind: Kind, slots: seq<Slot>)
    requires Injective(m) && SlotsPointInto(slots, m.Keys) && DistinctKeys(kind, slots)
    ensures SlotsPointInto(ImageSlots(m, kind, slots), m.Values)
    ensures DistinctKeys(kind, ImageSlots(m, kind, slots))
    decreases |slots|
  {
    if slots != [] {
      var init, last := slots[..|slots| - 1], slots[|slots| - 1];
      ImageSlotsShape(m, kind, init);
      var image := ImageSlots(m, kind, init);
      forall i | 0 <= i < |image| && kind != ArrayKind ensures image[i].key != Image(m, last.key) {
        ImageSlotsKey(m, kind, init, i);
        var j :| 0 <= j < |init| && image[i].key == Image(m, init[j].key);
        assert slots[j].key != last.key;
      }
    }
  }

  /** A complete copy of a closed graph is a closed graph. */
  lemma CopiesAreClosed(m: map<JsObject, JsObject>, nodes: set<JsObject>)
    requires Closed(nodes) && IsCopyMap(m, nodes)
    requires forall o :: o in m ==> Copied(m, o)
    ensures Closed(m.Values)
  {
    forall c | c in m.Values ensures SlotsPointInto(c.slots, m.Values) && DistinctKeys(c.kind, c.slots) {
      var o: JsObject :| o in m && m[o] == c;
      assert Copied(m, o);
      ImageSlotsShape(m, o.kind, o.slots);
    }
  }

  /** A frozen deep copy of a value, out of reach of everything that existed before. */
  method ImmutableCopy(value: Value, ghost nodes: set<JsObject>)
    returns (copy: Value, ghost m: map<JsObject, JsObject>, ghost slotsOf: map<JsObject, seq<Slot>>,
          ghost held: set<JsObject>)
    requires Closed(nodes) && PointsInto(value, nodes)
    ensures IsCopyOf(copy, value, m, slotsOf) && m.Keys <= nodes && slotsOf == SlotsOf(m.Keys)
    ensures fresh(m.Values) && held <= m.Values && Closed(held) && PointsInto(copy, held)
    ensures forall o :: o in held ==> o.frozen
  {
    var none: map<JsObject, JsObject> := map[];
    var seen;
    copy, seen := CloneValue(value, none, nodes);
    m := seen;
    slotsOf := SlotsOf(m.Keys);
    forall o | o in m ensures Copied(m, o) {
      assert o in m.Keys - none.Keys;
    }
    CopiesAreClosed(m, nodes);
    assert PointsInto(copy, m.Values);
    var frozen := FreezeValue(copy, {}, m.Values);
    held := frozen;
    forall o | o in held ensures o.frozen && SlotsPointInto(o.slots, held) {
      assert o in frozen - {};
    }
  }

  class AuditTrail {
    var events: seq<Value>
    ghost var nodes: set<JsObject>

    ghost predicate Valid()
      reads this, nodes
    {
      && Closed(nodes)
      && (forall i :: 0 <= i < |events| ==> PointsInto(events[i], nodes))
      && forall o :: o in nodes ==> o.frozen
    }

    constructor ()
      ensures Valid() && events == [] && nodes == {}
    {
      events, nodes := [], {};
    }

    /** Appends a frozen copy of the event. What was stored stays as it was, and the copy shares no
        object with the caller. */
    method Append(event: Value, ghost caller: set<JsObject>)
      returns (ghost m: map<JsObject, JsObject>, ghost slotsOf: map<JsObject, seq<Slot>>)
      requires Valid() && Closed(caller) && PointsInto(event, caller)
      modifies this
      ensures Valid() && fresh(nodes - old(nodes)) && old(nodes) <= nodes
      ensures |events| == |old(events)| + 1 && events[..|old(events)|] == old(events)
      ensures IsCopyOf(events[|old(events)|], event, m, slotsOf) && m.Keys <= caller && fresh(m.Values)
      ensures slotsOf == SlotsOf(m.Keys)
    {
      hide IsCopyOf;
      var copy;
      ghost var held;
      copy, m, slotsOf, held := ImmutableCopy(event, caller);
      events := events + [copy];
      nodes := nodes + held;
      JoinClosed(old(nodes), held);
    }

    /** Hands out copies of the stored events; the stored events are not reachable from them. */
    method GetAll() returns (all: seq<Value>, ghost maps: seq<map<JsObject, JsObject>>)
      requires Valid()
      ensures Valid() && |all| == |maps| == |events|
      ensures forall i :: 0 <= i < |all| ==> fresh(maps[i].Values) && maps[i].Keys <= nodes
      ensures forall i :: 0 <= i < |all| ==> IsCopyOf(all[i], events[i], maps[i], SlotsOf(maps[i].Keys))
    {
      hide IsCopyOf, Closed;
      all, maps := [], [];
      for n := 0 to |events|
        invariant Valid() && |all| == |maps| == n
        invariant forall i :: 0 <= i < n ==> fresh(maps[i].Values) && maps[i].Keys <= nodes
        invariant forall i :: 0 <= i < n ==> IsCopyOf(all[i], events[i], maps[i], SlotsOf(maps[i].Keys))
      {
        ghost var m, slotsOf, held;
        var copy;
        copy, m, slotsOf, held := ImmutableCopy(events[n], nodes);
        assert slotsOf == SlotsOf(m.Keys);
        all, maps := all + [copy], maps + [m];
      }
    }
  }

  lemma JoinClosed(a: set<JsObject>, b: set<JsObject>)
    requires Closed(a) && Closed(b)
    ensures Closed(a + b)
  {
    forall o | o in a + b ensures SlotsPointInto(o.slots, a + b) && DistinctKeys(o.kind, o.slots) {
      if o in a {
        PointsStay(o.slots, a, a + b);
      } else {
        PointsStay(o.slots, b, a + b);
      }
    }
  }

  // ----- A copy of a copy -----

  /** The entries a copy keeps: all but a plain object's "__proto__". */
  function Kept(kind: Kind, slots: seq<Slot>): seq<Slot> {
    if slots == [] then []
    else
      var init, last := slots[..|slots| - 1], slots[|slots| - 1];
      Kept(kind, init) + (if IsPrototypeField(kind, last.key) then [] else [last])
  }

  ghost function Composed(m: map<JsObject, JsObject>, m': map<JsObject, JsObject>): map<JsObject, JsObject> {
    map o | o in m && m[o] in m' :: m'[m[o]]
  }

  predicate NoPrototypeField(kind: Kind, slots: seq<Slot>) {
    forall i :: 0 <= i < |slots| ==> !IsPrototypeField(kind, slots[i].key)
  }

  lemma {:induction false} KeptAll(kind: Kind, slots: seq<Slot>)
    requires NoPrototypeField(kind, slots)
    ensures Kept(kind, slots) == slots
    decreases |slots|
  {
    if slots != [] {
      KeptAll(kind, slots[..|slots| - 1]);
    }
  }

  lemma ImageTwice(m: map<JsObject, JsObject>, m': map<JsObject, JsObject>, v: Value)
    requires PointsInto(v, m.Keys) && PointsInto(Image(m, v), m'.Keys)
    ensures PointsInto(v, Composed(m, m').Keys) && Image(Composed(m, m'), v) == Image(m', Image(m, v))
  {
  }

  lemma SnocSlots(m: map<JsObject, JsObject>, kind: Kind, init: seq<Slot>, last: Slot)
    requires SlotsPointInto(init + [last], m.Keys)
    ensures SlotsPointInto(init, m.Keys) && PointsInto(last.key, m.Keys) && PointsInto(last.item, m.Keys)
    ensures ImageSlots(m, kind, init + [last]) == ImageSlots(m, kind, init) +
              (if IsPrototypeField(kind, last.key) then [] else [Slot(Image(m, last.key), Image(m, last.item))])
  {
    var slots := init + [last];
    assert slots[..|slots| - 1] == init && slots[|slots| - 1] == last;
  }

  lemma KeptSnoc(kind: Kind, init: seq<Slot>, last: Slot)
    ensures Kept(kind, init + [last]) == Kept(kind, init) + (if IsPrototypeField(kind, last.key) then [] else [last])
  {
    var slots := init + [last];
    assert slots[..|slots| - 1] == init && slots[|slots| - 1] == last;
  }

  lemma JoinSlots(init: seq<Slot>, last: Slot, nodes: set<JsObject>)
    requires SlotsPointInto(init, nodes) && PointsInto(last.key, nodes) && PointsInto(last.item, nodes)
    ensures SlotsPointInto(init + [last], nodes)
  {
  }

  lemma NoPrototypeLeft(kind: Kind, m: map<JsObject, JsObject>, key: Value)
    requires PointsInto(key, m.Keys)
    ensures IsPrototypeField(kind, Image(m, key)) <==> IsPrototypeField(kind, key)
  {
  }

  /** Copying the copied entries is copying the kept ones. */
  lemma {:induction false} ImageSlotsTwice(
      m: map<JsObject, JsObject>, m': map<JsObject, JsObject>, kind: Kind, slots: seq<Slot>)
    requires SlotsPointInto(slots, m.Keys) && SlotsPointInto(ImageSlots(m, kind, slots), m'.Keys)
    ensures SlotsPointInto(Kept(kind, slots), Composed(m, m').Keys)
    ensures ImageSlots(m', kind, ImageSlots(m, kind, slots)) == ImageSlots(Composed(m, m'), kind, Kept(kind, slots))
    decreases |slots|
  {
    if slots != [] {
      var both, init, last := Composed(m, m'), slots[..|slots| - 1], slots[|slots| - 1];
      assert slots == init + [last];
      SnocSlots(m, kind, init, last);
      KeptSnoc(kind, init, last);
      hide ImageSlots, Kept, Composed, IsPrototypeField, SlotsPointInto;
      var image := ImageSlots(m, kind, init);
      if IsPrototypeField(kind, last.key) {
        assert image + [] == image && Kept(kind, init) + [] == Kept(kind, init);
        ImageSlotsTwice(m, m', kind, init);
      } else {
        var slot := Slot(Image(m, last.key), Image(m, last.item));
        SnocSlots(m', kind, image, slot);
        ImageSlotsTwice(m, m', kind, init);
        ImageTwice(m, m', last.key);
        ImageTwice(m, m', last.item);
        NoPrototypeLeft(kind, m, last.key);
        JoinSlots(Kept(kind, init), last, both.Keys);
        SnocSlots(both, kind, Kept(kind, init), last);
      }
    }
  }

  /** A copy of a copy is a copy of the first value, but for the entries the first copy had lost. */
  lemma CopyOfCopy(
      copy: Value, value: Value, m: map<JsObject, JsObject>, was: map<JsObject, seq<Slot>>,
      again: Value, m': map<JsObject, JsObject>)
    requires IsCopyOf(copy, value, m, was) && IsCopyOf(again, copy, m', SlotsOf(m'.Keys))
    ensures var both := Composed(m, m');
            IsCopyOf(again, value, both, map o | o in both :: Kept(o.kind, was[o]))
  {
    var both := Composed(m, m');
    ImageTwice(m, m', value);
    forall o | o in both
      ensures both[o].kind == o.kind && SlotsPointInto(Kept(o.kind, was[o]), both.Keys)
      ensures both[o].slots == ImageSlots(both, o.kind, Kept(o.kind, was[o]))
    {
      ImageSlotsTwice(m, m', o.kind, was[o]);
    }
  }

  /** One write into one object. */
  datatype Write = Write(target: JsObject, slots: seq<Slot>)

  /** Whatever is written after an append, into any objects that are not the trail's own, the caller's
      event among them: the next answer still holds the event as it was when it was appended. */
  method AppendWriteRead(trail: AuditTrail, event: Value, caller: set<JsObject>, writes: seq<Write>)
    returns (all: seq<Value>, ghost m: map<JsObject, JsObject>, ghost was: map<JsObject, seq<Slot>>)
    requires trail.Valid() && Closed(caller) && PointsInto(event, caller)
    requires forall w :: w in writes ==> w.target !in trail.nodes
    modifies trail, set w | w in writes :: w.target
    ensures trail.Valid() && |all| == |trail.events| == |old(trail.events)| + 1
    ensures trail.events[..|old(trail.events)|] == old(trail.events)
    ensures forall o :: o in old(trail.nodes) ==> o.slots == old(o.slots)
    ensures IsCopyOf(all[|old(trail.events)|], event, m, was) && m.Keys <= caller
    ensures forall o :: o in m ==> was[o] == Kept(o.kind, old(o.slots))
    ensures forall o :: o in m && NoPrototypeField(o.kind, old(o.slots)) ==> was[o] == old(o.slots)
  {
    hide IsCopyOf, Closed;
    ghost var first, slotsOf;
    first, slotsOf := trail.Append(event, caller);
    ghost var copy := trail.events[|old(trail.events)|];
    for i := 0 to |writes|
      invariant forall w :: w in writes ==> w.target !in trail.nodes && w.target !in first.Values
      invariant trail.Valid() && IsCopyOf(copy, event, first, slotsOf)
      invariant forall o :: o in old(trail.nodes) ==> o.slots == old(o.slots)
      invariant |trail.events| == |old(trail.events)| + 1
      invariant trail.events[..|old(trail.events)|] == old(trail.events) && trail.events[|old(trail.events)|] == copy
    {
      assert writes[i] in writes;
      writes[i].target.slots := writes[i].slots;
    }
    ghost var maps;
    all, maps := trail.GetAll();
    ghost var second := maps[|old(trail.events)|];
    CopyOfCopy(copy, event, first, slotsOf, all[|old(trail.events)|], second);
    m := Composed(first, second);
    was := map o | o in m :: Kept(o.kind, slotsOf[o]);
    forall o | o in m && NoPrototypeField(o.kind, slotsOf[o]) ensures was[o] == slotsOf[o] {
      KeptAll(o.kind, slotsOf[o]);
    }
  }
}
