/** Reading and writing by JSON Pointer, in place on shared containers. */
module JsonPointer {
  import opened Wrappers
  import opened JsonPointerText
  import opened JsonPointerState
  import opened JsonPointerLaws

  /** Parses with the limits checked in the order of the source. */
  method ParseJsonPointer(pointer: string, o: Options) returns (r: Result<seq<string>, PointerFailure>)
    ensures r == Parse(pointer, o)
  {
    hide Split, DecodeAll, FirstFailure, CountSlashes;
    if pointer == "" {
      return Ok([]);
    }
    if pointer[0] != '/' {
      return Err(BadSyntax);
    }
    if !IsLimit(o.maxSegments) {
      return Err(BadOption);
    }
    var count := CountJsonPointerSegments(pointer, o.maxSegments);
    if count > o.maxSegments {
      return Err(TooManySegments);
    }
    var decoded := DecodeSegments(Split(pointer[1..]));
    if decoded.Err? {
      return Err(decoded.error);
    }
    var failure := AssertSafeSegments(decoded.value, o);
    return if failure.Some? then Err(failure.value) else decoded;
  }

  method DecodeSegments(raw: seq<string>) returns (r: Result<seq<string>, PointerFailure>)
    ensures r == DecodeAll(raw)
  {
    hide Decode;
    var segments: seq<string> := [];
    var i := 0;
    assert raw[..|raw|] == raw;
    while i < |raw|
      invariant 0 <= i <= |raw| && DecodeAll(raw[..i]) == Ok(segments)
    {
      assert raw[..i + 1][..i] == raw[..i];
      var decoded := Decode(raw[i]);
      if decoded.Err? {
        StillFails(raw, i + 1);
        return Err(decoded.error);
      }
      segments := segments + [decoded.value];
      i := i + 1;
    }
    return Ok(segments);
  }

  method AssertSafeSegments(segments: seq<string>, o: Options) returns (failure: Option<PointerFailure>)
    ensures failure == FirstFailure(segments, o)
  {
    hide SegmentFailure;
    var i := 0;
    assert segments[..|segments|] == segments;
    while i < |segments|
      invariant 0 <= i <= |segments| && FirstFailure(segments[..i], o) == None
    {
      assert segments[..i + 1][..i] == segments[..i];
      failure := SegmentFailure(segments[i], o);
      if failure.Some? {
        FirstFailureStays(segments, i + 1, o);
        return;
      }
      i := i + 1;
    }
    return None;
  }

  lemma {:induction false} StillFails(raw: seq<string>, n: nat)
    requires n <= |raw| && DecodeAll(raw[..n]).Err?
    ensures DecodeAll(raw) == DecodeAll(raw[..n])
  {
    hide Decode;
    if n == |raw| {
      assert raw[..n] == raw;
    } else {
      assert raw[..|raw| - 1][..n] == raw[..n];
      StillFails(raw[..|raw| - 1], n);
    }
  }

  lemma {:induction false} FirstFailureStays(segments: seq<string>, n: nat, o: Options)
    requires n <= |segments| && FirstFailure(segments[..n], o).Some?
    ensures FirstFailure(segments, o) == FirstFailure(segments[..n], o)
  {
    hide SegmentFailure;
    if n == |segments| {
      assert segments[..n] == segments;
    } else {
      assert segments[..|segments| - 1][..n] == segments[..n];
      FirstFailureStays(segments[..|segments| - 1], n, o);
    }
  }

  /** Counts slashes, but stops once the limit is passed. */
  method CountJsonPointerSegments(pointer: string, max: nat) returns (count: nat)
    ensures count > max <==> CountSlashes(pointer) > max
    ensures count <= max ==> count == CountSlashes(pointer)
  {
    count := 0;
    var i := 0;
    assert pointer[..|pointer|] == pointer;
    while i < |pointer|
      invariant 0 <= i <= |pointer| && count + CountSlashes(pointer[i..]) == CountSlashes(pointer) && count <= max
    {
      assert pointer[i..][1..] == pointer[i + 1..];
      if pointer[i] == '/' {
        count := count + 1;
        if count > max {
          return;
        }
      }
      i := i + 1;
    }
  }

  // ----- What a call does -----

  function GetOutcome(h: Heap, target: Value, pointer: string, o: Options): Result<Value, PointerFailure>
    requires Closed(h) && RefIn(h, target)
  {
    match Parse(pointer, o)
    case Err(e) => Err(e)
    case Ok(segments) => Get(h, target, segments, o)
  }

  /** The containers after a set, or the failure that leaves them alone. */
  function SetOutcome(h: Heap, next: nat, c: nat, pointer: string, v: Value, o: Options): Result<Heap, PointerFailure>
    requires Closed(h) && c in h
  {
    match Parse(pointer, o)
    case Err(e) => Err(e)
    case Ok(segments) =>
      if segments == [] then Err(RootReplaced)
      else if SetPlace(h, c, segments, o).Err? then Err(SetPlace(h, c, segments, o).error)
      else Ok(SetAll(h, next, c, segments, v, o))
  }

  function Shifted(r: Result<Place, PointerFailure>, n: nat): Result<Place, PointerFailure> {
    match r
    case Err(e) => Err(e)
    case Ok(place) => Ok(Place(place.container, place.depth + n))
  }

  /** One existing container further along the path. */
  lemma WalkStep(h: Heap, c: nat, segments: seq<string>, o: Options)
    requires Closed(h) && c in h && |segments| > 1 && Has(h[c], segments[0], o) == Ok(true)
    ensures segments[0] in h[c].slots && RefIn(h, h[c].slots[segments[0]])
    ensures var child := Child(h, h[c].slots[segments[0]]);
            Walk(h, c, segments, o) ==
              if child.Err? then Err(child.error) else Shifted(Walk(h, child.value, segments[1..], o), 1)
  {
    hide ParseArrayIndex;
  }

  /** What the traversal check objects to, before anything is written. */
  function TraversalFailure(h: Heap, c: nat, segments: seq<string>, o: Options): Option<PointerFailure>
    requires Closed(h) && c in h && segments != []
  {
    if h[c].prototype then Some(PrototypeObject)
    else
      match Walk(h, c, segments, o)
      case Err(e) => Some(e)
      case Ok(place) =>
        if ChainFailure(segments[place.depth + 1..], o).Some? then ChainFailure(segments[place.depth + 1..], o)
        else
          var last := ParseArrayIndex(segments[|segments| - 1], o);
          if place.depth == |segments| - 1 && h[place.container].kind.Array? && last.Err? then Some(last.error)
          else None
  }

  class JsonMemory {
    var heap: Heap
    var next: nat

    constructor (heap: Heap, next: nat)
      requires Closed(heap) && Fits(heap, next)
      ensures this.heap == heap && this.next == next
    {
      this.heap, this.next := heap, next;
    }

    method GetJsonPointerValue(target: Value, pointer: string, o: Options) returns (r: Result<Value, PointerFailure>)
      requires Closed(heap) && RefIn(heap, target)
      ensures r == GetOutcome(heap, target, pointer, o)
    {
      hide Parse, ParseArrayIndex;
      var parsed := ParseJsonPointer(pointer, o);
      if parsed.Err? {
        return Err(parsed.error);
      }
      var segments := parsed.value;
      var current := target;
      var i := 0;
      while i < |segments|
        invariant 0 <= i <= |segments| && RefIn(heap, current)
        invariant Get(heap, current, segments[i..], o) == Get(heap, target, segments, o)
      {
        assert segments[i..][1..] == segments[i + 1..];
        if !current.Ref? {
          return Ok(Undefined);
        }
        var node := heap[current.id];
        if node.kind.Array? {
          var index := ParseArrayIndex(segments[i], o);
          if index.Err? {
            return Err(index.error);
          }
          if !index.value {
            return Ok(Undefined);
          }
        }
        if segments[i] !in node.slots {
          return Ok(Undefined);
        }
        current := node.slots[segments[i]];
        i := i + 1;
      }
      return Ok(current);
    }

    /** Walks the existing part of the path; None once a container is missing. */
    method ValidateSetJsonPointerTraversal(target: nat, segments: seq<string>,
                                           o: Options) returns (failure: Option<PointerFailure>)
      requires Closed(heap) && target in heap && segments != []
      ensures failure == TraversalFailure(heap, target, segments, o)
    {
      hide ParseArrayIndex, Child, Closed;
      if heap[target].prototype {
        return Some(PrototypeObject);
      }
      var current := target;
      var i := 0;
      while i < |segments| - 1 && Has(heap[current], segments[i], o) == Ok(true)
        invariant 0 <= i < |segments| && current in heap
        invariant Walk(heap, target, segments, o) == Shifted(Walk(heap, current, segments[i..], o), i)
        decreases |segments| - i
      {
        WalkStep(heap, current, segments[i..], o);
        assert segments[i..][1..] == segments[i + 1..];
        var child := Child(heap, heap[current].slots[segments[i]]);
        if child.Err? {
          return Some(child.error);
        }
        current := child.value;
        i := i + 1;
      }
      if i == |segments| - 1 {
        assert segments[i + 1..] == [];
        var last := ParseArrayIndex(segments[i], o);
        return if heap[current].kind.Array? && last.Err? then Some(last.error) else None;
      }
      var has := Has(heap[current], segments[i], o);
      if has.Err? {
        return Some(has.error);
      }
      if !o.createMissing {
        return Some(Missing);
      }
      failure := ValidateCreatedContainers(segments[i + 1..], o);
    }

    /** Each missing container's kind is decided by the segment that follows. */
    method ValidateCreatedContainers(segments: seq<string>, o: Options) returns (failure: Option<PointerFailure>)
      ensures failure == ChainFailure(segments, o)
    {
      hide ParseArrayIndex;
      var j := 0;
      assert segments[0..] == segments;
      while j < |segments|
        invariant 0 <= j <= |segments| && ChainFailure(segments[j..], o) == ChainFailure(segments, o)
      {
        assert segments[j..][1..] == segments[j + 1..];
        var index := ParseArrayIndex(segments[j], o);
        if index.Err? {
          return Some(index.error);
        }
        j := j + 1;
      }
      return None;
    }

    method WriteOwnContainerValue(c: nat, k: string, v: Value, o: Options) returns (failure: Option<PointerFailure>)
      requires c in heap
      modifies this`heap
      ensures failure == WriteFailure(old(heap)[c], k, o)
      ensures heap == if failure.None? then Written(old(heap), c, k, v) else old(heap)
    {
      hide ParseArrayIndex;
      if heap[c].kind.Array? {
        var index := ParseArrayIndex(k, o);
        if index.Err? {
          return Some(index.error);
        }
        if !index.value {
          return Some(NotAnIndex);
        }
      }
      if heap[c].frozen {
        return Some(PointerFailure.Frozen);
      }
      heap := heap[c := heap[c].(slots := heap[c].slots[k := v])];
      return None;
    }

    /** Follows the existing containers, creates the missing ones, and writes the value; the first
        write is the only one that can fail. */
    method WriteAlong(target: nat, segments: seq<string>, v: Value, o: Options)
      returns (failure: Option<PointerFailure>)
      requires Closed(heap) && Fits(heap, next) && target in heap && RefIn(heap, v) && segments != []
      requires TraversalFailure(heap, target, segments, o) == None
      modifies this
      ensures var place := SetPlace(old(heap), target, segments, o);
              if place.Err? then failure == Some(place.error) && heap == old(heap) && next == old(next)
              else failure == None && heap == SetAll(old(heap), old(next), target, segments, v, o) && Fits(heap, next)
    {
      hide ParseArrayIndex, Walk, Closed, Fits, Built, ChainFailure, WriteFailure, SetPlace, SetAll, CanBuild,
           TraversalFailure, Empty, Has;
      ghost var h, n := heap, next;
      var current := target;
      var i := 0;
      ghost var created := false;
      while i < |segments| - 1
        invariant 0 <= i < |segments| && current in heap
        invariant if created then Creating(h, n, target, segments, v, o, heap, next, current, i)
                  else
                    && heap == h && next == n
                    && Walk(h, target, segments, o) == Shifted(Walk(h, current, segments[i..], o), i)
        decreases |segments| - i
      {
        assert segments[i..][1..] == segments[i + 1..];
        if created {
          NothingInNew(h, n, target, segments, v, o, heap, next, current, i);
        }
        if Has(heap[current], segments[i], o) == Ok(true) {
          NextExisting(h, target, segments, current, i, o);
          current := Child(heap, heap[current].slots[segments[i]]).value;
        } else {
          if !created {
            CreationStarts(h, n, target, segments, v, o, current, i);
          }
          ghost var before := heap;
          failure := WriteOwnContainerValue(current, segments[i], Ref(next), o);
          if failure.Some? {
            return;
          }
          heap := heap[next := Empty(segments[i + 1], o)];
          CreationGoesOn(h, n, target, segments, v, o, before, next, current, i);
          assert heap == Written(before[next := Empty(segments[i + 1], o)], current, segments[i], Ref(next));
          current, next := next, next + 1;
          created := true;
        }
        i := i + 1;
      }
      if !created {
        LastPlace(h, n, target, segments, v, o, current);
      } else {
        LastCreated(h, n, target, segments, v, o, heap, next, current);
      }
      failure := WriteOwnContainerValue(current, segments[i], v, o);
    }

    method SetJsonPointerValue(target: nat, pointer: string, v: Value,
                               o: Options) returns (failure: Option<PointerFailure>)
      requires Closed(heap) && Fits(heap, next) && target in heap && RefIn(heap, v)
      modifies this
      ensures var outcome := SetOutcome(old(heap), old(next), target, pointer, v, o);
              if outcome.Err? then failure == Some(outcome.error) && heap == old(heap)
              else failure == None && heap == outcome.value
      ensures Closed(heap) && Fits(heap, next)
    {
      hide Parse, Walk, Closed, Fits, ChainFailure, WriteFailure;
      var parsed := ParseJsonPointer(pointer, o);
      if parsed.Err? {
        return Some(parsed.error);
      }
      var segments := parsed.value;
      if segments == [] {
        return Some(RootReplaced);
      }
      failure := ValidateSetJsonPointerTraversal(target, segments, o);
      CheckIsNoStricter(heap, target, segments, o);
      if failure.Some? {
        return;
      }
      SetKeepsClosed(heap, next, target, segments, v, o);
      failure := WriteAlong(target, segments, v, o);
    }
  }

  /** On an accepted path, an existing segment leads to a container. */
  lemma NextExisting(h: Heap, target: nat, segments: seq<string>, c: nat, i: nat, o: Options)
    requires Closed(h) && target in h && c in h && i < |segments| - 1
    requires TraversalFailure(h, target, segments, o) == None && Has(h[c], segments[i], o) == Ok(true)
    requires Walk(h, target, segments, o) == Shifted(Walk(h, c, segments[i..], o), i)
    ensures segments[i] in h[c].slots && RefIn(h, h[c].slots[segments[i]])
    ensures var child := Child(h, h[c].slots[segments[i]]);
            child.Ok? && Walk(h, target, segments, o) == Shifted(Walk(h, child.value, segments[i + 1..], o), i + 1)
  {
    hide ParseArrayIndex, ChainFailure, Child;
    WalkStep(h, c, segments[i..], o);
    assert segments[i..][1..] == segments[i + 1..];
  }

  /** For pointers as written: on a tree, a set that succeeds is read back by the same pointer. */
  lemma PointerGetAfterSet(h: Heap, next: nat, c: nat, pointer: string, v: Value, o: Options)
    requires Closed(h) && Fits(h, next) && c in h && RefIn(h, v) && TreeShaped(h, c, o)
    requires SetOutcome(h, next, c, pointer, v, o).Ok?
    ensures var u := SetOutcome(h, next, c, pointer, v, o).value;
            Closed(u) && c in u && GetOutcome(u, Ref(c), pointer, o) == Ok(v)
  {
    hide Parse, SetPlace, SetAll, TreeShaped, Get, Closed, Fits;
    TreeGetAfterSet(h, next, c, Parse(pointer, o).value, v, o);
  }

  /** The write has begun: what remains to be built, from here, is the whole result. */
  ghost predicate Creating(h: Heap, n: nat, target: nat, segments: seq<string>, v: Value, o: Options,
                           heap: Heap, next: nat, c: nat, i: nat)
    requires Closed(h) && target in h && segments != []
  {
    && i < |segments| && SetPlace(h, target, segments, o).Ok?
    && CanBuild(heap, next, c, segments[i..], v, o)
    && Built(heap, next, c, segments[i..], v, o) == SetAll(h, n, target, segments, v, o)
    && heap[c] == Empty(segments[i], o)
  }

  lemma NothingInNew(h: Heap, n: nat, target: nat, segments: seq<string>, v: Value, o: Options,
                     heap: Heap, next: nat, c: nat, i: nat)
    requires Closed(h) && target in h && segments != []
    requires Creating(h, n, target, segments, v, o, heap, next, c, i)
    ensures Has(heap[c], segments[i], o) != Ok(true) && WriteFailure(heap[c], segments[i], o) == None
  {
    hide ParseArrayIndex;
  }

  /** From the first missing slot on, the result is what remains to be built from there. */
  lemma CreationStarts(h: Heap, n: nat, target: nat, segments: seq<string>, v: Value, o: Options, c: nat, i: nat)
    requires Closed(h) && Fits(h, n) && target in h && c in h && i < |segments| - 1 && RefIn(h, v)
    requires TraversalFailure(h, target, segments, o) == None
    requires Walk(h, target, segments, o) == Shifted(Walk(h, c, segments[i..], o), i)
    requires Has(h[c], segments[i], o) != Ok(true)
    ensures var failure := WriteFailure(h[c], segments[i], o);
            if failure.Some? then SetPlace(h, target, segments, o) == Err(failure.value)
            else SetPlace(h, target, segments, o).Ok? && CanBuild(h, n, c, segments[i..], v, o)
                 && Built(h, n, c, segments[i..], v, o) == SetAll(h, n, target, segments, v, o)
  {
    hide ParseArrayIndex, WriteFailure, Built;
    MissingHere(h, target, segments, c, i, o);
    assert segments[i..][1..] == segments[i + 1..];
  }

  lemma CreationGoesOn(h: Heap, n: nat, target: nat, segments: seq<string>, v: Value, o: Options,
                       heap: Heap, next: nat, c: nat, i: nat)
    requires Closed(h) && target in h && i < |segments| - 1 && SetPlace(h, target, segments, o).Ok?
    requires CanBuild(heap, next, c, segments[i..], v, o)
    requires Built(heap, next, c, segments[i..], v, o) == SetAll(h, n, target, segments, v, o)
    ensures var first := Written(heap[next := Empty(segments[i + 1], o)], c, segments[i], Ref(next));
            && next !in heap && next in first && Creating(h, n, target, segments, v, o, first, next + 1, next, i + 1)
  {
    hide ParseArrayIndex, WriteFailure, ChainFailure, SetPlace, SetAll, AgreeExcept;
    BuiltStep(heap, next, c, segments[i..], v, o);
    FirstCreation(heap, next, c, segments[i], segments[i + 1], o);
    assert segments[i..][1..] == segments[i + 1..];
  }

  lemma WalkOfOne(h: Heap, c: nat, segments: seq<string>, o: Options)
    requires Closed(h) && c in h && |segments| == 1
    ensures Walk(h, c, segments, o) == Ok(Place(c, 0))
  {
    hide Closed, ParseArrayIndex, Has, Child;
  }

  lemma ShiftedPlace(c: nat, n: nat)
    ensures Shifted(Ok(Place(c, 0)), n) == Ok(Place(c, n))
  {
  }

  /** A path whose containers all exist is written in the last of them. */
  lemma WalkEndsHere(h: Heap, target: nat, segments: seq<string>, o: Options, c: nat)
    requires Closed(h) && target in h && c in h && segments != []
    requires var i := |segments| - 1; Walk(h, target, segments, o) == Shifted(Walk(h, c, segments[i..], o), i)
    ensures Walk(h, target, segments, o) == Ok(Place(c, |segments| - 1))
  {
    hide *;
    var i := |segments| - 1;
    assert |segments[i..]| == 1;
    WalkOfOne(h, c, segments[i..], o);
    ShiftedPlace(c, i);
  }

  lemma WriteAtEnd(h: Heap, n: nat, target: nat, segments: seq<string>, v: Value, o: Options, c: nat)
    requires Closed(h) && target in h && c in h && segments != []
    requires !h[target].prototype && Walk(h, target, segments, o) == Ok(Place(c, |segments| - 1))
    ensures var k := segments[|segments| - 1];
            var failure := WriteFailure(h[c], k, o);
            if failure.Some? then SetPlace(h, target, segments, o) == Err(failure.value)
            else SetPlace(h, target, segments, o).Ok? && SetAll(h, n, target, segments, v, o) == Written(h, c, k, v)
  {
    hide ParseArrayIndex, WriteFailure, Walk, Closed, Written;
    var i := |segments| - 1;
    assert segments[i + 1..] == [] && segments[i..] == [segments[i]];
  }

  lemma WriteKeepsNumbers(h: Heap, n: nat, c: nat, k: string, v: Value)
    requires Fits(h, n) && c in h
    ensures Fits(Written(h, c, k, v), n)
  {
  }

  lemma LastPlace(h: Heap, n: nat, target: nat, segments: seq<string>, v: Value, o: Options, c: nat)
    requires Closed(h) && Fits(h, n) && target in h && c in h && segments != []
    requires TraversalFailure(h, target, segments, o) == None
    requires var i := |segments| - 1; Walk(h, target, segments, o) == Shifted(Walk(h, c, segments[i..], o), i)
    ensures var k := segments[|segments| - 1];
            var failure := WriteFailure(h[c], k, o);
            if failure.Some? then SetPlace(h, target, segments, o) == Err(failure.value)
            else SetPlace(h, target, segments, o).Ok? && SetAll(h, n, target, segments, v, o) == Written(h, c, k, v)
                 && Fits(Written(h, c, k, v), n)
  {
    hide ParseArrayIndex, WriteFailure, ChainFailure, Walk, Closed, Fits, Written, SetPlace, SetAll;
    WalkEndsHere(h, target, segments, o, c);
    WriteAtEnd(h, n, target, segments, v, o, c);
    WriteKeepsNumbers(h, n, c, segments[|segments| - 1], v);
  }

  lemma LastCreated(h: Heap, n: nat, target: nat, segments: seq<string>, v: Value, o: Options, heap: Heap, next: nat,
                    c: nat)
    requires Closed(h) && target in h && segments != []
    requires Creating(h, n, target, segments, v, o, heap, next, c, |segments| - 1)
    ensures var k := segments[|segments| - 1];
            && SetPlace(h, target, segments, o).Ok? && WriteFailure(heap[c], k, o) == None
            && SetAll(h, n, target, segments, v, o) == Written(heap, c, k, v) && Fits(Written(heap, c, k, v), next)
  {
    hide ParseArrayIndex, WriteFailure, SetPlace, SetAll;
  }

  /** Whatever the check objects to, the write would object to as well. */
  lemma CheckIsNoStricter(h: Heap, c: nat, segments: seq<string>, o: Options)
    requires Closed(h) && c in h && segments != []
    ensures var failure := TraversalFailure(h, c, segments, o);
            failure.Some? ==> SetPlace(h, c, segments, o) == Err(failure.value)
  {
    hide ParseArrayIndex;
  }

  lemma SetKeepsClosed(h: Heap, next: nat, c: nat, segments: seq<string>, v: Value, o: Options)
    requires Closed(h) && Fits(h, next) && c in h && segments != [] && RefIn(h, v)
    ensures SetPlace(h, c, segments, o).Ok? ==> Closed(SetAll(h, next, c, segments, v, o))
  {
    hide ParseArrayIndex, Walk, ChainFailure, WriteFailure, AgreeExcept, Closed, Fits;
    if SetPlace(h, c, segments, o).Ok? {
      var place := SetPlace(h, c, segments, o).value;
      BuiltChanges(h, next, place.container, segments[place.depth..], v, o);
    }
  }

  /** A missing slot on an accepted path is the place of the write. */
  lemma MissingHere(h: Heap, target: nat, segments: seq<string>, c: nat, i: nat, o: Options)
    requires Closed(h) && target in h && c in h && i < |segments| - 1
    requires TraversalFailure(h, target, segments, o) == None
    requires Walk(h, target, segments, o) == Shifted(Walk(h, c, segments[i..], o), i)
    requires Has(h[c], segments[i], o) != Ok(true)
    ensures Walk(h, target, segments, o) == Ok(Place(c, i)) && ChainFailure(segments[i + 1..], o) == None
  {
    hide ParseArrayIndex;
  }
}
