/** The laws of reading and writing by JSON Pointer. */
module JsonPointerLaws {
  import opened Wrappers
  import opened JsonPointerText
  import opened JsonPointerState

  // ----- What a write changes -----

  ghost predicate SameSlots(before: map<string, Value>, after: map<string, Value>, written: bool, k: string) {
    forall j :: !(written && j == k) ==> (j in after <==> j in before) && (j in before ==> after[j] == before[j])
  }

  /** Nothing but one slot, and containers that were not there. */
  ghost predicate AgreeExcept(h: Heap, u: Heap, c: nat, k: string) {
    forall d :: d in h ==> d in u && u[d].kind == h[d].kind && SameSlots(h[d].slots, u[d].slots, d == c, k)
  }

  lemma {:induction false} BuiltChanges(h: Heap, next: nat, c: nat, segments: seq<string>, v: Value, o: Options)
    requires Closed(h) && Fits(h, next) && c in h && segments != [] && RefIn(h, v)
    ensures var u := Built(h, next, c, segments, v, o);
            Closed(u) && AgreeExcept(h, u, c, segments[0]) && h.Keys <= u.Keys
    decreases |segments|
  {
    hide AgreeExcept, Closed, Fits;
    if |segments| > 1 {
      var first := Written(h[next := Empty(segments[1], o)], c, segments[0], Ref(next));
      FirstCreation(h, next, c, segments[0], segments[1], o);
      BuiltChanges(first, next + 1, next, segments[1..], v, o);
      AgreementsCompose(h, first, Built(h, next, c, segments, v, o), c, segments[0], next, segments[1]);
    } else {
      LastChange(h, c, segments[0], v);
    }
  }

  lemma FirstCreation(h: Heap, next: nat, c: nat, k: string, k1: string, o: Options)
    requires Closed(h) && Fits(h, next) && c in h
    ensures var first := Written(h[next := Empty(k1, o)], c, k, Ref(next));
            && Closed(first) && Fits(first, next + 1) && AgreeExcept(h, first, c, k)
            && h.Keys <= first.Keys && next !in h && first[next] == Empty(k1, o)
  {
    hide ParseArrayIndex;
  }

  lemma LastChange(h: Heap, c: nat, k: string, v: Value)
    requires Closed(h) && c in h && RefIn(h, v)
    ensures Closed(Written(h, c, k, v)) && AgreeExcept(h, Written(h, c, k, v), c, k)
  {
  }

  lemma AgreementsCompose(h: Heap, first: Heap, u: Heap, c: nat, k: string, d: nat, k1: string)
    requires AgreeExcept(h, first, c, k) && AgreeExcept(first, u, d, k1) && d !in h
    ensures AgreeExcept(h, u, c, k)
  {
  }

  /** The container stays as it is where the write does not reach. */
  lemma SlotStays(h: Heap, u: Heap, c: nat, k: string, d: nat, j: string)
    requires AgreeExcept(h, u, c, k) && d in h && !(d == c && j == k)
    ensures d in u && u[d].kind == h[d].kind && (j in u[d].slots <==> j in h[d].slots)
    ensures j in h[d].slots ==> u[d].slots[j] == h[d].slots[j]
  {
  }

  // ----- Reading in steps -----

  /** Reading a path in two parts. */
  lemma {:induction false} GetInParts(h: Heap, v: Value, a: seq<string>, b: seq<string>, o: Options)
    requires Closed(h) && RefIn(h, v)
    ensures Get(h, v, a, o).Ok? ==> RefIn(h, Get(h, v, a, o).value)
    ensures Get(h, v, a + b, o) == if Get(h, v, a, o).Ok? then Get(h, Get(h, v, a, o).value, b, o) else Get(h, v, a, o)
    decreases |a|
  {
    hide ParseArrayIndex;
    if a == [] {
      assert a + b == b;
    } else {
      assert (a + b)[1..] == a[1..] + b;
      if v.Ref? && a[0] in h[v.id].slots {
        GetInParts(h, h[v.id].slots[a[0]], a[1..], b, o);
      }
    }
  }

  /** Reading the path looks at slot k of container c. */
  ghost predicate Reads(h: Heap, v: Value, segments: seq<string>, o: Options, c: nat, k: string)
    requires Closed(h) && RefIn(h, v)
    decreases |segments|
  {
    segments != [] && v.Ref? &&
    ((v.id == c && segments[0] == k) ||
     (segments[0] in h[v.id].slots && (h[v.id].kind.Array? ==> ParseArrayIndex(segments[0], o) == Ok(true))
      && Reads(h, h[v.id].slots[segments[0]], segments[1..], o, c, k)))
  }

  lemma {:induction false} ReadsAt(h: Heap, v: Value, segments: seq<string>, o: Options, c: nat,
                                   k: string) returns (i: nat)
    requires Closed(h) && RefIn(h, v) && Reads(h, v, segments, o, c, k)
    ensures i < |segments| && Get(h, v, segments[..i], o) == Ok(Ref(c)) && segments[i] == k
    decreases |segments|
  {
    hide ParseArrayIndex;
    if v.id == c && segments[0] == k {
      i := 0;
    } else {
      var j := ReadsAt(h, h[v.id].slots[segments[0]], segments[1..], o, c, k);
      i := j + 1;
      assert segments[..i][1..] == segments[1..][..j];
    }
  }

  lemma {:induction false} PathReads(h: Heap, v: Value, segments: seq<string>, o: Options, c: nat, i: nat)
    requires Closed(h) && RefIn(h, v) && i < |segments| && Get(h, v, segments[..i], o) == Ok(Ref(c))
    ensures Reads(h, v, segments, o, c, segments[i])
    decreases |segments|
  {
    hide ParseArrayIndex;
    if i > 0 {
      assert segments[..i][1..] == segments[1..][..i - 1];
      PathReads(h, h[v.id].slots[segments[0]], segments[1..], o, c, i - 1);
    }
  }

  /** A path that does not read the written slot reads as before. */
  lemma {:induction false} UnreadSlotIsNoMatter(h: Heap, u: Heap, c: nat, k: string, v: Value, segments: seq<string>,
                                                o: Options)
    requires Closed(h) && Closed(u) && RefIn(h, v) && AgreeExcept(h, u, c, k)
    requires !Reads(h, v, segments, o, c, k)
    ensures RefIn(u, v) && Get(u, v, segments, o) == Get(h, v, segments, o)
    decreases |segments|
  {
    hide ParseArrayIndex, AgreeExcept;
    if v.Ref? {
      SlotStays(h, u, c, k, v.id, if segments != [] then segments[0] else k + "x");
      if segments != [] && segments[0] in h[v.id].slots
        && (h[v.id].kind.Array? ==> ParseArrayIndex(segments[0], o) == Ok(true)) {
        UnreadSlotIsNoMatter(h, u, c, k, h[v.id].slots[segments[0]], segments[1..], o);
      }
    }
  }

  /** A path that reads the written slot on its way sees the new value there. */
  lemma {:induction false} ReadSlotShowsScalar(h: Heap, u: Heap, c: nat, k: string, v: Value, segments: seq<string>,
                                               o: Options, text: string)
    requires Closed(h) && Closed(u) && RefIn(h, v) && AgreeExcept(h, u, c, k)
    requires c in u && k in u[c].slots && u[c].slots[k] == Scalar(text)
    requires c in h && (h[c].kind.Array? ==> ParseArrayIndex(k, o) == Ok(true))
    requires segments != [] && Reads(h, v, segments[..|segments| - 1], o, c, k)
    ensures RefIn(u, v) && Get(u, v, segments, o) == Ok(Undefined)
    decreases |segments|
  {
    hide ParseArrayIndex, AgreeExcept;
    var path := segments[..|segments| - 1];
    SlotStays(h, u, c, k, v.id, if v.id == c && path[0] == k then k + "x" else path[0]);
    if !(v.id == c && path[0] == k) {
      assert segments[1..][..|segments[1..]| - 1] == path[1..];
      ReadSlotShowsScalar(h, u, c, k, h[v.id].slots[path[0]], segments[1..], o, text);
    }
  }

  // ----- The place of a write -----

  lemma {:induction false} WalkIsRead(h: Heap, c: nat, segments: seq<string>, o: Options)
    requires Closed(h) && c in h && segments != [] && Walk(h, c, segments, o).Ok?
    ensures var place := Walk(h, c, segments, o).value;
            && Get(h, Ref(c), segments[..place.depth], o) == Ok(Ref(place.container))
            && (place.depth < |segments| - 1 ==> Has(h[place.container], segments[place.depth], o) == Ok(false))
    decreases |segments|
  {
    hide ParseArrayIndex;
    var place := Walk(h, c, segments, o).value;
    if place.depth > 0 {
      var d := Child(h, h[c].slots[segments[0]]).value;
      WalkIsRead(h, d, segments[1..], o);
      assert segments[..place.depth][1..] == segments[1..][..place.depth - 1];
    }
  }

  /** The path to the place of the write reads the very slot that is written. */
  ghost predicate Revisits(h: Heap, c: nat, segments: seq<string>, o: Options, place: Place)
    requires Closed(h) && c in h && place.depth < |segments|
  {
    Reads(h, Ref(c), segments[..place.depth], o, place.container, segments[place.depth])
  }

  /** When something is created, the slot was empty, so the path to it cannot have read it. */
  lemma {:induction false} PresentSlotsOnly(h: Heap, v: Value, path: seq<string>, o: Options, c: nat, k: string)
    requires Closed(h) && RefIn(h, v) && c in h && Get(h, v, path, o).Ok? && Get(h, v, path, o).value.Ref?
    requires Has(h[c], k, o) == Ok(false)
    ensures !Reads(h, v, path, o, c, k)
    decreases |path|
  {
    hide ParseArrayIndex;
    if path != [] {
      PresentSlotsOnly(h, h[v.id].slots[path[0]], path[1..], o, c, k);
    }
  }

  // ----- What the writes leave to be read -----

  ghost predicate CanBuild(h: Heap, next: nat, c: nat, segments: seq<string>, v: Value, o: Options) {
    && Closed(h) && Fits(h, next) && c in h && segments != [] && RefIn(h, v)
    && WriteFailure(h[c], segments[0], o) == None && ChainFailure(segments[1..], o) == None
  }

  lemma Writable(node: Node, k: string, o: Options)
    requires WriteFailure(node, k, o) == None
    ensures node.kind.Array? ==> ParseArrayIndex(k, o) == Ok(true)
  {
  }

  /** Following the first written slot. */
  lemma BuiltStep(h: Heap, next: nat, c: nat, segments: seq<string>, v: Value, o: Options)
    requires CanBuild(h, next, c, segments, v, o) && |segments| > 1
    ensures var first := Written(h[next := Empty(segments[1], o)], c, segments[0], Ref(next));
            var u := Built(h, next, c, segments, v, o);
            && CanBuild(first, next + 1, next, segments[1..], v, o)
            && Closed(u) && next in u && u == Built(first, next + 1, next, segments[1..], v, o)
            && AgreeExcept(first, u, next, segments[1])
            && c in u && segments[0] in u[c].slots && u[c].slots[segments[0]] == Ref(next)
            && (u[c].kind.Array? ==> ParseArrayIndex(segments[0], o) == Ok(true))
  {
    hide ParseArrayIndex, Closed, Fits, AgreeExcept;
    var first := Written(h[next := Empty(segments[1], o)], c, segments[0], Ref(next));
    FirstCreation(h, next, c, segments[0], segments[1], o);
    Writable(h[c], segments[0], o);
    BuiltChanges(first, next + 1, next, segments[1..], v, o);
    var u := Built(h, next, c, segments, v, o);
    SlotStays(first, u, next, segments[1], c, segments[0]);
    assert segments[1..][1..] == segments[2..];
  }

  lemma FollowSlot(h: Heap, c: nat, v: Value, q: seq<string>, o: Options)
    requires Closed(h) && c in h && q != [] && q[0] in h[c].slots && h[c].slots[q[0]] == v
    requires h[c].kind.Array? ==> ParseArrayIndex(q[0], o) == Ok(true)
    ensures RefIn(h, v) && Get(h, Ref(c), q, o) == Get(h, v, q[1..], o)
  {
    hide ParseArrayIndex;
  }

  lemma {:induction false} BuiltShowsValue(h: Heap, next: nat, c: nat, segments: seq<string>, v: Value, o: Options)
    requires CanBuild(h, next, c, segments, v, o)
    ensures var u := Built(h, next, c, segments, v, o); Closed(u) && c in u && Get(u, Ref(c), segments, o) == Ok(v)
    decreases |segments|
  {
    hide ParseArrayIndex, WriteFailure, ChainFailure, Closed, Fits, AgreeExcept, Get;
    if |segments| == 1 {
      LastWrite(h, next, c, segments, v, o);
    } else {
      BuiltStep(h, next, c, segments, v, o);
      var first := Written(h[next := Empty(segments[1], o)], c, segments[0], Ref(next));
      BuiltShowsValue(first, next + 1, next, segments[1..], v, o);
      FollowSlot(Built(h, next, c, segments, v, o), c, Ref(next), segments, o);
    }
  }

  lemma LastWrite(h: Heap, next: nat, c: nat, segments: seq<string>, v: Value, o: Options)
    requires CanBuild(h, next, c, segments, v, o) && |segments| == 1
    ensures var u := Built(h, next, c, segments, v, o); Closed(u) && c in u && Get(u, Ref(c), segments, o) == Ok(v)
  {
    hide ParseArrayIndex;
    var u := Built(h, next, c, segments, v, o);
    BuiltChanges(h, next, c, segments, v, o);
    Writable(h[c], segments[0], o);
    FollowSlot(u, c, v, segments, o);
    assert segments[1..] == [];
  }

  /** What is read off the path inside newly created containers: nothing, or an index error. */
  function OffPath(pathSegment: string, segment: string, o: Options): Result<Value, PointerFailure> {
    if ParseArrayIndex(pathSegment, o) == Ok(true) && ParseArrayIndex(segment, o).Err?
    then Err(ParseArrayIndex(segment, o).error) else Ok(Undefined)
  }

  ghost predicate Diverge(p: seq<string>, q: seq<string>, i: nat) {
    i < |p| && i < |q| && p[..i] == q[..i] && p[i] != q[i]
  }

  lemma {:induction false} BuiltOffPath(h: Heap, next: nat, c: nat, segments: seq<string>, v: Value, o: Options,
                                        q: seq<string>, i: nat)
    requires CanBuild(h, next, c, segments, v, o) && Diverge(segments, q, i) && i > 0
    ensures var u := Built(h, next, c, segments, v, o);
            Closed(u) && c in u && Get(u, Ref(c), q, o) == OffPath(segments[i], q[i], o)
    decreases |segments|
  {
    hide ParseArrayIndex, WriteFailure, ChainFailure, Closed, Fits, AgreeExcept, Get, OffPath;
    BuiltStep(h, next, c, segments, v, o);
    var first := Written(h[next := Empty(segments[1], o)], c, segments[0], Ref(next));
    var u := Built(h, next, c, segments, v, o);
    assert q[0] == q[..i][0] == segments[..i][0] == segments[0];
    FollowSlot(u, c, Ref(next), q, o);
    FirstCreation(h, next, c, segments[0], segments[1], o);
    if i == 1 {
      OffPathInNew(first, u, next, segments[1], q[1..], o);
    } else {
      assert segments[1..][..i - 1] == segments[..i][1..] && q[1..][..i - 1] == q[..i][1..];
      BuiltOffPath(first, next + 1, next, segments[1..], v, o, q[1..], i - 1);
    }
  }

  lemma OffPathInNew(first: Heap, u: Heap, d: nat, k: string, q: seq<string>, o: Options)
    requires Closed(u) && d in first && first[d] == Empty(k, o) && AgreeExcept(first, u, d, k)
    requires q != [] && q[0] != k
    ensures d in u && Get(u, Ref(d), q, o) == OffPath(k, q[0], o)
  {
    hide ParseArrayIndex;
    SlotStays(first, u, d, k, d, q[0]);
  }

  // ----- Main results -----

  /** A value written is the value read, unless the path to its slot runs through that slot; and
      then a scalar cannot be read back. */
  lemma GetAfterSet(h: Heap, next: nat, c: nat, segments: seq<string>, v: Value, o: Options)
    requires Closed(h) && Fits(h, next) && c in h && segments != [] && RefIn(h, v) && SetPlace(h, c, segments, o).Ok?
    ensures var u := SetAll(h, next, c, segments, v, o);
            var place := SetPlace(h, c, segments, o).value;
            && Closed(u) && c in u
            && (!Revisits(h, c, segments, o, place) ==> Get(u, Ref(c), segments, o) == Ok(v))
            && (Revisits(h, c, segments, o, place) && v.Scalar? ==> Get(u, Ref(c), segments, o) == Ok(Undefined))
  {
    hide ParseArrayIndex, Get, AgreeExcept, Built, Closed;
    var place := SetPlace(h, c, segments, o).value;
    var path, rest := segments[..place.depth], segments[place.depth..];
    var u := SetAll(h, next, c, segments, v, o);
    WalkIsRead(h, c, segments, o);
    assert segments == path + rest && rest[1..] == segments[place.depth + 1..];
    BuiltChanges(h, next, place.container, rest, v, o);
    BuiltShowsValue(h, next, place.container, rest, v, o);
    if !Revisits(h, c, segments, o, place) {
      UnreadSlotIsNoMatter(h, u, place.container, rest[0], Ref(c), path, o);
      GetInParts(u, Ref(c), path, rest, o);
    } else if v.Scalar? {
      RevisitIsLast(h, c, segments, o);
      assert segments[..|segments| - 1] == path;
      WrittenSlot(h, next, place.container, rest, v, o);
      ReadSlotShowsScalar(h, u, place.container, rest[0], Ref(c), segments, o, v.text);
    }
  }

  lemma RevisitIsLast(h: Heap, c: nat, segments: seq<string>, o: Options)
    requires Closed(h) && c in h && segments != [] && SetPlace(h, c, segments, o).Ok?
    requires Revisits(h, c, segments, o, SetPlace(h, c, segments, o).value)
    ensures SetPlace(h, c, segments, o).value.depth == |segments| - 1
  {
    hide ParseArrayIndex, Get, Walk, Closed;
    var place := SetPlace(h, c, segments, o).value;
    WalkIsRead(h, c, segments, o);
    if place.depth < |segments| - 1 {
      PresentSlotsOnly(h, Ref(c), segments[..place.depth], o, place.container, segments[place.depth]);
    }
  }

  lemma WrittenSlot(h: Heap, next: nat, c: nat, segments: seq<string>, v: Value, o: Options)
    requires CanBuild(h, next, c, segments, v, o) && |segments| == 1
    ensures Built(h, next, c, segments, v, o)[c].slots == h[c].slots[segments[0] := v]
    ensures h[c].kind.Array? ==> ParseArrayIndex(segments[0], o) == Ok(true)
  {
    Writable(h[c], segments[0], o);
  }

  /** No container is reached by two paths. */
  ghost predicate TreeShaped(h: Heap, c: nat, o: Options)
    requires Closed(h) && c in h
  {
    forall p: seq<string>, q: seq<string>, d: nat ::
      (Get(h, Ref(c), p, o) == Ok(Ref(d)) && Get(h, Ref(c), q, o) == Ok(Ref(d))) ==> p == q
  }

  lemma SamePath(h: Heap, c: nat, p: seq<string>, q: seq<string>, d: nat, o: Options)
    requires Closed(h) && c in h && TreeShaped(h, c, o)
    requires Get(h, Ref(c), p, o) == Ok(Ref(d)) && Get(h, Ref(c), q, o) == Ok(Ref(d))
    ensures p == q
  {
    hide Get;
  }

  lemma NoShorterPath(h: Heap, c: nat, p: seq<string>, i: nat, o: Options)
    requires Closed(h) && c in h && TreeShaped(h, c, o) && i < |p|
    ensures Get(h, Ref(c), p, o).Ok? && Get(h, Ref(c), p, o).value.Ref? ==>
      Get(h, Ref(c), p[..i], o) != Get(h, Ref(c), p, o)
  {
    hide Get, TreeShaped;
    var found := Get(h, Ref(c), p, o);
    if found.Ok? && found.value.Ref? && Get(h, Ref(c), p[..i], o) == found {
      SamePath(h, c, p, p[..i], Get(h, Ref(c), p, o).value.id, o);
    }
  }

  lemma TreeDoesNotRevisit(h: Heap, c: nat, segments: seq<string>, o: Options)
    requires Closed(h) && c in h && segments != [] && SetPlace(h, c, segments, o).Ok? && TreeShaped(h, c, o)
    ensures !Revisits(h, c, segments, o, SetPlace(h, c, segments, o).value)
  {
    hide ParseArrayIndex, Get, Walk, Closed;
    var place := SetPlace(h, c, segments, o).value;
    var path := segments[..place.depth];
    WalkIsRead(h, c, segments, o);
    if Revisits(h, c, segments, o, place) {
      var i := ReadsAt(h, Ref(c), path, o, place.container, segments[place.depth]);
      NoShorterPath(h, c, path, i, o);
    }
  }

  /** On a tree, what was written is read back, whatever the value. */
  lemma TreeGetAfterSet(h: Heap, next: nat, c: nat, segments: seq<string>, v: Value, o: Options)
    requires Closed(h) && Fits(h, next) && c in h && segments != [] && RefIn(h, v) && SetPlace(h, c, segments, o).Ok?
    requires TreeShaped(h, c, o)
    ensures var u := SetAll(h, next, c, segments, v, o); Closed(u) && c in u && Get(u, Ref(c), segments, o) == Ok(v)
  {
    hide Get, Walk, Closed, Revisits, SetAll, TreeShaped;
    TreeDoesNotRevisit(h, c, segments, o);
    GetAfterSet(h, next, c, segments, v, o);
  }

  /** What a pointer that leaves the written path at segment i reads afterwards. */
  ghost function AfterWrite(h: Heap, c: nat, p: seq<string>, q: seq<string>, i: nat, o: Options)
    : Result<Value, PointerFailure>
    requires Closed(h) && c in h && p != [] && SetPlace(h, c, p, o).Ok? && Diverge(p, q, i)
  {
    if SetPlace(h, c, p, o).value.depth < i then OffPath(p[i], q[i], o) else Get(h, Ref(c), q, o)
  }

  lemma BeforeCreation(h: Heap, d: nat, k: string, rest: seq<string>, o: Options)
    requires Closed(h) && d in h && rest != [] && rest[0] == k && Has(h[d], k, o) == Ok(false)
    ensures Get(h, Ref(d), rest, o) == Ok(Undefined)
  {
    hide ParseArrayIndex;
  }

  /** On a tree, a pointer that leaves the written path reads as before; inside containers the write
      created there was nothing to read, and an index over the limit of a created array is now an
      error. */
  lemma DivergingPointer(h: Heap, next: nat, c: nat, p: seq<string>, v: Value, q: seq<string>, i: nat, o: Options)
    requires Closed(h) && Fits(h, next) && c in h && p != [] && RefIn(h, v) && SetPlace(h, c, p, o).Ok?
    requires TreeShaped(h, c, o) && Diverge(p, q, i)
    ensures var u := SetAll(h, next, c, p, v, o);
            && Closed(u) && c in u && Get(u, Ref(c), q, o) == AfterWrite(h, c, p, q, i, o)
            && (SetPlace(h, c, p, o).value.depth < i ==> Get(h, Ref(c), q, o) == Ok(Undefined))
  {
    hide ParseArrayIndex, Get, Walk, AgreeExcept, Built, Closed, TreeShaped, OffPath;
    var Place(d, m) := SetPlace(h, c, p, o).value;
    var u := SetAll(h, next, c, p, v, o);
    WalkIsRead(h, c, p, o);
    BuiltChanges(h, next, d, p[m..], v, o);
    if m < i {
      CreatedOffPath(h, next, c, p, v, q, i, o);
    } else {
      DivergedEarlier(h, c, p, q, i, o);
      UnreadSlotIsNoMatter(h, u, d, p[m], Ref(c), q, o);
    }
  }

  lemma DivergeAfter(p: seq<string>, q: seq<string>, i: nat, m: nat)
    requires Diverge(p, q, i) && m < |p| && m < |q| && p[..m] == q[..m] && p[m] == q[m]
    ensures m < i
  {
    forall j | 0 <= j < m ensures p[j] == q[j] {
      assert p[j] == p[..m][j] == q[..m][j];
    }
  }

  /** A pointer that leaves the path no later than at the written slot does not read it. */
  lemma DivergedEarlier(h: Heap, c: nat, p: seq<string>, q: seq<string>, i: nat, o: Options)
    requires Closed(h) && c in h && p != [] && SetPlace(h, c, p, o).Ok? && TreeShaped(h, c, o) && Diverge(p, q, i)
    requires i <= SetPlace(h, c, p, o).value.depth
    ensures var place := SetPlace(h, c, p, o).value; !Reads(h, Ref(c), q, o, place.container, p[place.depth])
  {
    hide ParseArrayIndex, Get, Walk, Closed, TreeShaped;
    var Place(d, m) := SetPlace(h, c, p, o).value;
    WalkIsRead(h, c, p, o);
    if Reads(h, Ref(c), q, o, d, p[m]) {
      var j := ReadsAt(h, Ref(c), q, o, d, p[m]);
      SamePath(h, c, p[..m], q[..j], d, o);
      DivergeAfter(p, q, i, m);
    }
  }

  lemma CreatedOffPath(h: Heap, next: nat, c: nat, p: seq<string>, v: Value, q: seq<string>, i: nat, o: Options)
    requires Closed(h) && Fits(h, next) && c in h && p != [] && RefIn(h, v) && SetPlace(h, c, p, o).Ok?
    requires TreeShaped(h, c, o) && Diverge(p, q, i) && SetPlace(h, c, p, o).value.depth < i
    ensures var u := SetAll(h, next, c, p, v, o);
            && Closed(u) && c in u && Get(u, Ref(c), q, o) == OffPath(p[i], q[i], o)
            && Get(h, Ref(c), q, o) == Ok(Undefined)
  {
    hide ParseArrayIndex, Get, Walk, AgreeExcept, Built, Closed, TreeShaped, OffPath, Has;
    var Place(d, m) := SetPlace(h, c, p, o).value;
    var u := SetAll(h, next, c, p, v, o);
    var path, rest := q[..m], q[m..];
    assert path == q[..i][..m] == p[..i][..m] == p[..m];
    assert q[m] == q[..i][m] == p[..i][m] == p[m];
    assert q == path + rest;
    WalkIsRead(h, c, p, o);
    TreeDoesNotRevisit(h, c, p, o);
    BuiltChanges(h, next, d, p[m..], v, o);
    UnreadSlotIsNoMatter(h, u, d, p[m], Ref(c), path, o);
    GetInParts(h, Ref(c), path, rest, o);
    GetInParts(u, Ref(c), path, rest, o);
    BeforeCreation(h, d, p[m], rest, o);
    assert p[m..][1..] == p[m + 1..];
    assert p[m..][..i - m] == p[..i][m..] && rest[..i - m] == q[..i][m..];
    BuiltOffPath(h, next, d, p[m..], v, o, rest, i - m);
  }

  // ----- Inputs that show the exceptions -----

  /** A container that holds itself. */
  function Loop(): Heap {
    map[0 := Node(Plain, map["a" := Ref(0)], false, false)]
  }

  /** The slot a path runs through is the one it ends in: the scalar written there is not read back. */
  lemma ValueNotReadBack(o: Options, text: string)
    ensures var h, path := Loop(), ["a", "a"];
            && Closed(h) && Fits(h, 1) && SetPlace(h, 0, path, o) == Ok(Place(0, 1))
            && Revisits(h, 0, path, o, Place(0, 1))
            && Closed(SetAll(h, 1, 0, path, Scalar(text), o)) && 0 in SetAll(h, 1, 0, path, Scalar(text), o)
            && Get(SetAll(h, 1, 0, path, Scalar(text), o), Ref(0), path, o) == Ok(Undefined)
  {
    hide ParseArrayIndex;
    var h, path := Loop(), ["a", "a"];
    assert path[1..] == ["a"] && path[..1] == ["a"] && path[2..] == [];
    assert Walk(h, 0, ["a"], o) == Ok(Place(0, 0));
    assert ChainFailure(path[2..], o) == None;
    assert Get(h, Ref(0), [], o) == Ok(Ref(0));
    assert Revisits(h, 0, path, o, Place(0, 1)) by {
      assert Reads(h, Ref(0), ["a"], o, 0, "a");
    }
    GetAfterSet(h, 1, 0, path, Scalar(text), o);
  }

  /** An empty container. */
  function Root(): Heap {
    map[0 := Node(Plain, map[], false, false)]
  }

  lemma OneDigit(s: string, o: Options)
    requires |s| == 1 && '0' <= s[0] <= '9' && IsLimit(o.maxArrayIndex)
    ensures ParseArrayIndex(s, o) == if (s[0] - '0') as int > o.maxArrayIndex then Err(IndexTooLarge) else Ok(true)
  {
    assert s[..0] == "" && DecimalValue(s) == (s[0] - '0') as nat;
  }

  lemma RootIsTree(h: Heap, o: Options)
    requires h == Root() && Closed(h)
    ensures TreeShaped(h, 0, o)
  {
    hide ParseArrayIndex;
    forall p: seq<string>, d: nat | Get(h, Ref(0), p, o) == Ok(Ref(d)) ensures p == [] {
    }
  }

  /** A pointer that read nothing before a set fails after it: the set created an array where its index
      is over the limit. */
  lemma IndexNowTooLarge(o: Options, text: string)
    requires o.createMissing && 0 <= o.maxArrayIndex < 9
    ensures var h, p, q := Root(), ["a", "0"], ["a", "9"];
            && Closed(h) && SetPlace(h, 0, p, o) == Ok(Place(0, 0)) && TreeShaped(h, 0, o) && Diverge(p, q, 1)
            && Get(h, Ref(0), q, o) == Ok(Undefined)
            && var u := SetAll(h, 1, 0, p, Scalar(text), o);
               Closed(u) && 0 in u && Get(u, Ref(0), q, o) == Err(IndexTooLarge)
  {
    hide ParseArrayIndex;
    var h, p, q := Root(), ["a", "0"], ["a", "9"];
    OneDigit("0", o);
    OneDigit("9", o);
    assert p[1..] == ["0"] && p[1] == "0" && q[1] == "9" && p[..1] == ["a"] == q[..1];
    assert ChainFailure(["0"], o) == None by {
      assert ["0"][1..] == [];
    }
    RootIsTree(h, o);
    DivergingPointer(h, 1, 0, p, Scalar(text), q, 1, o);
  }
}
