/** The containers a pointer walks through, and what reading and writing along it are specified to
    do to them. */
module JsonPointerState {
  import opened Wrappers
  import opened JsonPointerText

  /** Arrays and plain objects are containers a write may pass; other objects can only be read. */
  datatype Kind = Plain | Array | Foreign

  datatype Value = Undefined | Scalar(text: string) | Ref(id: nat)

  /** Own properties by name; those of an array by the decimal text of their index. */
  datatype Node = Node(kind: Kind, slots: map<string, Value>, prototype: bool, frozen: bool)

  type Heap = map<nat, Node>

  ghost predicate RefIn(h: Heap, v: Value) {
    v.Ref? ==> v.id in h
  }

  ghost predicate Closed(h: Heap) {
    forall c, k :: c in h && k in h[c].slots ==> RefIn(h, h[c].slots[k])
  }

  // ----- Array indices -----

  /** 0, or digits without a leading zero. */
  predicate IsIndexText(s: string) {
    && s != "" && (forall i :: 0 <= i < |s| ==> '0' <= s[i] <= '9')
    && (s[0] == '0' ==> |s| == 1)
  }

  function DecimalValue(s: string): nat
    requires forall i :: 0 <= i < |s| ==> '0' <= s[i] <= '9'
  {
    if s == "" then 0 else 10 * DecimalValue(s[..|s| - 1]) + (s[|s| - 1] - '0') as nat
  }

  /** Whether the segment is an index; an index over the limit is an error. */
  function ParseArrayIndex(s: string, o: Options): Result<bool, PointerFailure> {
    if !IsIndexText(s) then Ok(false)
    else if !IsLimit(o.maxArrayIndex) then Err(BadOption)
    else if DecimalValue(s) > o.maxArrayIndex || DecimalValue(s) > MAX_SAFE_INTEGER then Err(IndexTooLarge)
    else Ok(true)
  }

  // ----- Reading -----

  function Get(h: Heap, v: Value, segments: seq<string>, o: Options): Result<Value, PointerFailure>
    requires Closed(h) && RefIn(h, v)
    decreases |segments|
  {
    if segments == [] then Ok(v)
    else if !v.Ref? then Ok(Undefined)
    else
      var node, k := h[v.id], segments[0];
      if node.kind.Array? && ParseArrayIndex(k, o) != Ok(true) then
        if ParseArrayIndex(k, o).Err? then Err(ParseArrayIndex(k, o).error) else Ok(Undefined)
      else if k in node.slots then Get(h, node.slots[k], segments[1..], o)
      else Ok(Undefined)
  }

  // ----- Writing -----

  /** hasOwnContainerValue */
  function Has(node: Node, k: string, o: Options): Result<bool, PointerFailure> {
    if node.kind.Array? then
      match ParseArrayIndex(k, o)
      case Err(e) => Err(e)
      case Ok(index) => Ok(index && k in node.slots)
    else Ok(k in node.slots)
  }

  /** The existing container an intermediate segment leads to. */
  function Child(h: Heap, v: Value): (r: Result<nat, PointerFailure>)
    requires RefIn(h, v)
    ensures r.Ok? ==> r.value in h && v == Ref(r.value)
  {
    if !v.Ref? || h[v.id].kind.Foreign? then Err(NotAContainer)
    else if h[v.id].prototype then Err(PrototypeObject)
    else Ok(v.id)
  }

  /** Where the write begins: the deepest existing container, and how many segments lead to it. */
  datatype Place = Place(container: nat, depth: nat)

  function Walk(h: Heap, c: nat, segments: seq<string>, o: Options): (r: Result<Place, PointerFailure>)
    requires Closed(h) && c in h && segments != []
    ensures r.Ok? ==> r.value.container in h && r.value.depth < |segments|
    decreases |segments|
  {
    if |segments| == 1 then Ok(Place(c, 0))
    else
      match Has(h[c], segments[0], o)
      case Err(e) => Err(e)
      case Ok(false) => if !o.createMissing then Err(Missing) else Ok(Place(c, 0))
      case Ok(true) =>
        match Child(h, h[c].slots[segments[0]])
        case Err(e) => Err(e)
        case Ok(d) =>
          match Walk(h, d, segments[1..], o)
          case Err(e) => Err(e)
          case Ok(place) => Ok(Place(place.container, place.depth + 1))
  }

  /** The first error among segments that decide the kind of a container to create. */
  function ChainFailure(segments: seq<string>, o: Options): Option<PointerFailure> {
    if segments == [] then None
    else if ParseArrayIndex(segments[0], o).Err? then Some(ParseArrayIndex(segments[0], o).error)
    else ChainFailure(segments[1..], o)
  }

  /** defineProperty on the container where the write begins. */
  function WriteFailure(node: Node, k: string, o: Options): Option<PointerFailure> {
    if node.kind.Array? && ParseArrayIndex(k, o).Err? then Some(ParseArrayIndex(k, o).error)
    else if node.kind.Array? && ParseArrayIndex(k, o) == Ok(false) then Some(NotAnIndex)
    else if node.frozen then Some(PointerFailure.Frozen)
    else None
  }

  /** What the traversal check and the first write can object to. */
  function SetPlace(h: Heap, c: nat, segments: seq<string>, o: Options): (r: Result<Place, PointerFailure>)
    requires Closed(h) && c in h && segments != []
    ensures r.Ok? ==> r.value.container in h && r.value.depth < |segments|
  {
    if h[c].prototype then Err(PrototypeObject)
    else
      match Walk(h, c, segments, o)
      case Err(e) => Err(e)
      case Ok(place) =>
        var chain := ChainFailure(segments[place.depth + 1..], o);
        if chain.Some? then Err(chain.value)
        else
          var failure := WriteFailure(h[place.container], segments[place.depth], o);
          if failure.Some? then Err(failure.value) else Ok(place)
  }

  function Written(h: Heap, c: nat, k: string, v: Value): Heap
    requires c in h
  {
    h[c := h[c].(slots := h[c].slots[k := v])]
  }

  function Empty(nextSegment: string, o: Options): Node {
    Node(if ParseArrayIndex(nextSegment, o) == Ok(true) then Array else Plain, map[], false, false)
  }

  /** The writes along the missing part of the path, new containers numbered from "next". */
  function Built(h: Heap, next: nat, c: nat, segments: seq<string>, v: Value, o: Options): Heap
    requires c in h && segments != []
    decreases |segments|
  {
    if |segments| == 1 then Written(h, c, segments[0], v)
    else
      var first := Written(h[next := Empty(segments[1], o)], c, segments[0], Ref(next));
      Built(first, next + 1, next, segments[1..], v, o)
  }

  function SetAll(h: Heap, next: nat, c: nat, segments: seq<string>, v: Value, o: Options): Heap
    requires Closed(h) && c in h && segments != [] && SetPlace(h, c, segments, o).Ok?
  {
    var place := SetPlace(h, c, segments, o).value;
    Built(h, next, place.container, segments[place.depth..], v, o)
  }

  /** Every container has a number below "next". */
  ghost predicate Fits(h: Heap, next: nat) {
    forall c :: c in h ==> c < next
  }
}
