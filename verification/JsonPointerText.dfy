/** JSON Pointer syntax: splitting, and the escapes of section 4 of RFC 6901. */
module JsonPointerText {
  import opened Wrappers

  const DEFAULT_MAX_SEGMENTS: int := 128
  const DEFAULT_MAX_SEGMENT_LENGTH: int := 512
  const DEFAULT_MAX_ARRAY_INDEX: int := 10_000
  const MAX_SAFE_INTEGER: int := 9_007_199_254_740_991

  datatype PointerFailure =
    | BadSyntax | BadOption | TooManySegments | BadEscape | SegmentTooLong | UnsafeSegment
    | IndexTooLarge | NotAContainer | PrototypeObject | Missing | NotAnIndex | RootReplaced | Frozen

  datatype Options = Options(
    allowUnsafe: bool, maxSegments: int, maxSegmentLength: int, maxArrayIndex: int, createMissing: bool)

  predicate IsLimit(n: int) {
    0 <= n <= MAX_SAFE_INTEGER
  }

  // ----- Escapes -----

  /** Every occurrence of the two characters a, b replaced by c, from left to right. */
  function ReplaceAll(s: string, a: char, b: char, c: char): string {
    if |s| >= 2 && s[0] == a && s[1] == b then [c] + ReplaceAll(s[2..], a, b, c)
    else if s == "" then ""
    else [s[0]] + ReplaceAll(s[1..], a, b, c)
  }

  /** No tilde but those of the two escapes. */
  predicate ValidEscapes(s: string) {
    forall i :: 0 <= i < |s| && s[i] == '~' ==> i + 1 < |s| && s[i + 1] in {'0', '1'}
  }

  function Decode(s: string): Result<string, PointerFailure> {
    if ValidEscapes(s) then Ok(ReplaceAll(ReplaceAll(s, '~', '1', '/'), '~', '0', '~')) else Err(BadEscape)
  }

  function EscapeChar(c: char): string {
    if c == '~' then "~0" else if c == '/' then "~1" else [c]
  }

  /** The encoding the RFC defines, one character at a time. */
  function Escape(s: string): string {
    if s == "" then "" else EscapeChar(s[0]) + Escape(s[1..])
  }

  lemma {:induction false} EscapeIsValid(s: string)
    ensures ValidEscapes(Escape(s))
    ensures forall i :: 0 <= i < |Escape(s)| ==> Escape(s)[i] != '/'
  {
    if s != "" {
      EscapeIsValid(s[1..]);
      var front, rest := EscapeChar(s[0]), Escape(s[1..]);
      forall i | 0 <= i < |front + rest| && (front + rest)[i] == '~'
        ensures i + 1 < |front + rest| && (front + rest)[i + 1] in {'0', '1'}
      {
        if i >= |front| {
          assert rest[i - |front|] == '~';
        }
      }
    }
  }

  /** The first pass leaves "~0" alone and undoes "~1". */
  function HalfEscape(s: string): string {
    if s == "" then "" else (if s[0] == '~' then "~0" else [s[0]]) + HalfEscape(s[1..])
  }

  lemma {:induction false} FirstPass(s: string)
    ensures ReplaceAll(Escape(s), '~', '1', '/') == HalfEscape(s)
  {
    if s != "" {
      FirstPass(s[1..]);
      var rest := Escape(s[1..]);
      if s[0] == '~' {
        assert Escape(s) == ['~', '0'] + rest;
        assert Escape(s)[1..] == ['0'] + rest && (['0'] + rest)[1..] == rest;
      } else if s[0] == '/' {
        assert Escape(s) == ['~', '1'] + rest && Escape(s)[2..] == rest;
      } else {
        assert Escape(s) == [s[0]] + rest && Escape(s)[1..] == rest;
      }
    }
  }

  lemma {:induction false} SecondPass(s: string)
    ensures ReplaceAll(HalfEscape(s), '~', '0', '~') == s
  {
    if s != "" {
      SecondPass(s[1..]);
      var rest := HalfEscape(s[1..]);
      if s[0] == '~' {
        assert HalfEscape(s) == ['~', '0'] + rest && HalfEscape(s)[2..] == rest;
      } else {
        assert HalfEscape(s) == [s[0]] + rest && HalfEscape(s)[1..] == rest;
      }
    }
  }

  /** Decoding inverts the escaping of every text. */
  lemma DecodeInvertsEscape(s: string)
    ensures Decode(Escape(s)) == Ok(s)
  {
    EscapeIsValid(s);
    FirstPass(s);
    SecondPass(s);
  }

  lemma ValidTail(s: string, n: nat)
    requires ValidEscapes(s) && n <= |s|
    ensures ValidEscapes(s[n..])
  {
    forall i | 0 <= i < |s[n..]| && s[n..][i] == '~' ensures i + 1 < |s[n..]| && s[n..][i + 1] in {'0', '1'} {
      assert s[n + i] == '~';
    }
  }

  /** Every valid segment is the escaping of what it decodes to. */
  lemma {:induction false} ValidIsEscape(raw: string) returns (s: string)
    requires ValidEscapes(raw) && '/' !in raw
    ensures Escape(s) == raw
    decreases |raw|
  {
    if raw == "" {
      s := "";
    } else {
      var n := if raw[0] == '~' then 2 else 1;
      ValidTail(raw, n);
      var rest := ValidIsEscape(raw[n..]);
      s := [if raw[0] != '~' then raw[0] else if raw[1] == '0' then '~' else '/'] + rest;
      assert s[1..] == rest && raw == raw[..n] + raw[n..];
    }
  }

  /** A segment decodes to s exactly when it is the escaping of s. */
  lemma DecodesToIffEscape(raw: string, s: string)
    requires '/' !in raw
    ensures Decode(raw) == Ok(s) <==> raw == Escape(s)
  {
    DecodeInvertsEscape(s);
    if ValidEscapes(raw) {
      var t := ValidIsEscape(raw);
      DecodeInvertsEscape(t);
    }
  }

  // ----- Pointers -----

  /** text.split('/') */
  function Split(s: string): (parts: seq<string>)
    ensures |parts| >= 1
  {
    if s == "" then [""]
    else
      var rest := Split(s[1..]);
      if s[0] == '/' then [""] + rest else [[s[0]] + rest[0]] + rest[1..]
  }

  function Join(parts: seq<string>): string
    requires |parts| >= 1
  {
    if |parts| == 1 then parts[0] else parts[0] + "/" + Join(parts[1..])
  }

  lemma {:induction false} JoinSplit(s: string)
    ensures Join(Split(s)) == s
    ensures forall i :: 0 <= i < |Split(s)| ==> '/' !in Split(s)[i]
  {
    if s != "" {
      JoinSplit(s[1..]);
      var rest := Split(s[1..]);
      if s[0] != '/' {
        assert Split(s) == [[s[0]] + rest[0]] + rest[1..];
        if |rest| > 1 {
          assert Split(s)[1..] == rest[1..];
        }
      } else {
        assert Split(s)[1..] == rest;
      }
    }
  }

  lemma {:induction false} SplitPrefix(a: string, s: string)
    requires '/' !in a
    ensures Split(a + s) == [a + Split(s)[0]] + Split(s)[1..]
  {
    if a == "" {
      assert a + s == s && a + Split(s)[0] == Split(s)[0];
      assert [Split(s)[0]] + Split(s)[1..] == Split(s);
    } else {
      SplitPrefix(a[1..], s);
      assert (a + s)[1..] == a[1..] + s;
      assert [a[0]] + (a[1..] + Split(s)[0]) == a + Split(s)[0];
    }
  }

  lemma {:induction false} SplitJoin(parts: seq<string>)
    requires |parts| >= 1 && forall i :: 0 <= i < |parts| ==> '/' !in parts[i]
    ensures Split(Join(parts)) == parts
  {
    if |parts| == 1 {
      SplitPrefix(parts[0], "");
      assert parts[0] + "" == parts[0];
    } else {
      SplitJoin(parts[1..]);
      var rest := "/" + Join(parts[1..]);
      SplitPrefix(parts[0], rest);
      assert rest[1..] == Join(parts[1..]);
      assert parts[0] + "/" + Join(parts[1..]) == parts[0] + rest;
      assert parts[0] + "" == parts[0];
    }
  }

  function CountSlashes(s: string): nat {
    if s == "" then 0 else (if s[0] == '/' then 1 else 0) + CountSlashes(s[1..])
  }

  lemma {:induction false} SplitLength(s: string)
    ensures |Split(s)| == CountSlashes(s) + 1
  {
    if s != "" {
      SplitLength(s[1..]);
    }
  }

  const UNSAFE_SEGMENTS: set<string> := {"__proto__", "prototype", "constructor"}

  function SegmentFailure(s: string, o: Options): Option<PointerFailure> {
    if !IsLimit(o.maxSegmentLength) then Some(BadOption)
    else if |s| > o.maxSegmentLength then Some(SegmentTooLong)
    else if !o.allowUnsafe && s in UNSAFE_SEGMENTS then Some(UnsafeSegment)
    else None
  }

  function DecodeAll(raw: seq<string>): Result<seq<string>, PointerFailure> {
    if raw == [] then Ok([])
    else
      var last := Decode(raw[|raw| - 1]);
      match DecodeAll(raw[..|raw| - 1])
      case Err(e) => Err(e)
      case Ok(front) => if last.Err? then Err(last.error) else Ok(front + [last.value])
  }

  function FirstFailure(segments: seq<string>, o: Options): Option<PointerFailure> {
    if segments == [] then None
    else
      var before := FirstFailure(segments[..|segments| - 1], o);
      if before.Some? then before else SegmentFailure(segments[|segments| - 1], o)
  }

  function Parse(pointer: string, o: Options): Result<seq<string>, PointerFailure> {
    if pointer == "" then Ok([])
    else if pointer[0] != '/' then Err(BadSyntax)
    else if !IsLimit(o.maxSegments) then Err(BadOption)
    else if CountSlashes(pointer) > o.maxSegments then Err(TooManySegments)
    else
      match DecodeAll(Split(pointer[1..]))
      case Err(e) => Err(e)
      case Ok(segments) =>
        if FirstFailure(segments, o).Some? then Err(FirstFailure(segments, o).value) else Ok(segments)
  }

  function Escaped(segments: seq<string>): (r: seq<string>)
    ensures |r| == |segments| && forall i :: 0 <= i < |segments| ==> r[i] == Escape(segments[i])
  {
    seq(|segments|, i requires 0 <= i < |segments| => Escape(segments[i]))
  }

  /** The pointer the RFC writes for a list of reference tokens. */
  function Render(segments: seq<string>): string {
    if segments == [] then "" else "/" + Join(Escaped(segments))
  }

  ghost predicate WithinLimits(segments: seq<string>, o: Options) {
    && (segments != [] ==> IsLimit(o.maxSegments))
    && |segments| <= o.maxSegments
    && (segments != [] ==> IsLimit(o.maxSegmentLength))
    && (forall i :: 0 <= i < |segments| ==> |segments[i]| <= o.maxSegmentLength)
    && (!o.allowUnsafe ==> forall i :: 0 <= i < |segments| ==>
         segments[i] !in {"__proto__", "prototype", "constructor"})
  }

  lemma SegmentsWithinLimits(segments: seq<string>, o: Options)
    ensures WithinLimits(segments, o) <==>
      && (segments != [] ==> IsLimit(o.maxSegments)) && |segments| <= o.maxSegments
      && forall i :: 0 <= i < |segments| ==> SegmentFailure(segments[i], o) == None
  {
    if segments != [] {
      assert segments[0] == segments[0];
      assert SegmentFailure(segments[0], o) == None ==> IsLimit(o.maxSegmentLength);
    }
  }

  lemma {:induction false} DecodeAllInvertsEscaped(segments: seq<string>)
    ensures DecodeAll(Escaped(segments)) == Ok(segments)
  {
    if segments != [] {
      var front, last := segments[..|segments| - 1], segments[|segments| - 1];
      DecodeAllInvertsEscaped(front);
      DecodeInvertsEscape(last);
      assert Escaped(segments)[..|segments| - 1] == Escaped(front);
      assert front + [last] == segments;
    } else {
      assert Escaped(segments) == [];
    }
  }

  lemma {:induction false} DecodedAreEscapes(raw: seq<string>)
    requires DecodeAll(raw).Ok? && forall i :: 0 <= i < |raw| ==> '/' !in raw[i]
    ensures Escaped(DecodeAll(raw).value) == raw
  {
    if raw != [] {
      var front, last := raw[..|raw| - 1], raw[|raw| - 1];
      assert forall i :: 0 <= i < |front| ==> front[i] == raw[i];
      DecodedAreEscapes(front);
      DecodesToIffEscape(last, Decode(last).value);
    }
  }

  lemma {:induction false} NoFailure(segments: seq<string>, o: Options)
    ensures FirstFailure(segments, o) == None <==>
            forall i :: 0 <= i < |segments| ==> SegmentFailure(segments[i], o) == None
  {
    if segments != [] {
      NoFailure(segments[..|segments| - 1], o);
      assert forall i :: 0 <= i < |segments| - 1 ==> segments[..|segments| - 1][i] == segments[i];
    }
  }

  lemma RenderedSlashes(segments: seq<string>)
    requires segments != []
    ensures CountSlashes(Render(segments)) == |segments|
    ensures Split(Render(segments)[1..]) == Escaped(segments)
  {
    var text := Join(Escaped(segments));
    forall i | 0 <= i < |segments| ensures '/' !in Escaped(segments)[i] {
      EscapeIsValid(segments[i]);
    }
    SplitJoin(Escaped(segments));
    SplitLength(text);
    assert Render(segments)[1..] == text;
  }

  /** A pointer parses to a list of segments exactly when it is that list's rendering and the list
      keeps the limits. */
  lemma ParsesIffRendering(pointer: string, segments: seq<string>, o: Options)
    requires pointer != ""
    ensures Parse(pointer, o) == Ok(segments) <==> pointer == Render(segments) && WithinLimits(segments, o)
  {
    SegmentsWithinLimits(segments, o);
    hide Decode, Escape, SegmentFailure, Split, Join, WithinLimits;
    if pointer == Render(segments) && WithinLimits(segments, o) {
      RenderedSlashes(segments);
      DecodeAllInvertsEscaped(segments);
      NoFailure(segments, o);
    }
    if Parse(pointer, o) == Ok(segments) {
      var raw := Split(pointer[1..]);
      JoinSplit(pointer[1..]);
      DecodedAreEscapes(raw);
      NoFailure(segments, o);
      SplitLength(pointer[1..]);
      assert pointer == "/" + pointer[1..];
    }
  }
}
