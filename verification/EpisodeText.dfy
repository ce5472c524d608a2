/** Episodic rows as right-to-forget reads them: the stored text of their details, the record a
    request leaves, and the text a selector is compared with. */
module EpisodeText {
  import opened Wrappers

  const MAX_SAFE_INTEGER: int := 9_007_199_254_740_991

  datatype EventType = Success | Failure | Decision | Observation

  /** A JSON value as far as the shapes tell values apart; arrays, other numbers, booleans and null
      are kept as they are rendered. */
  datatype Value =
    | Text(text: string)
    | Count(n: nat)
    | Fields(fields: seq<Member>)
    | Other(rendered: string)

  datatype Member = Member(name: string, value: Value)

  /** The details of a stored row: absent, a text that is no JSON, or a rendered value. */
  datatype Details = NoDetails | Malformed(text: string) | Parsed(value: Value)

  datatype Episode = Episode(kind: EventType, step: string, summary: string, details: Details)

  // ----- Rendering -----

  function Digits(n: nat): string {
    var last := [('0' as int + n % 10) as char];
    if n < 10 then last else Digits(n / 10) + last
  }

  function HexDigit(n: nat): char
    requires n < 16
  {
    if n < 10 then ('0' as int + n) as char else ('a' as int + (n - 10)) as char
  }

  function Escaped(c: char): string {
    if c == '"' then "\\\""
    else if c == '\\' then "\\\\"
    else if c == '\n' then "\\n"
    else if c == '\r' then "\\r"
    else if c == '\t' then "\\t"
    else if c as int == 8 then "\\b"
    else if c as int == 12 then "\\f"
    else if c as int < 32 then "\\u00" + [HexDigit(c as int / 16), HexDigit(c as int % 16)]
    else [c]
  }

  function EscapedText(s: string): string {
    if s == "" then "" else Escaped(s[0]) + EscapedText(s[1..])
  }

  function Quoted(s: string): string {
    "\"" + EscapedText(s) + "\""
  }

  function Render(v: Value): string
    decreases v, 0
  {
    match v
    case Text(s) => Quoted(s)
    case Count(n) => Digits(n)
    case Fields(fs) => "{" + RenderFields(fs) + "}"
    case Other(s) => s
  }

  function RenderFields(fs: seq<Member>): string
    decreases fs, 0
  {
    if fs == [] then ""
    else Quoted(fs[0].name) + ":" + Render(fs[0].value) + (if |fs| == 1 then "" else ",") + RenderFields(fs[1..])
  }

  function DetailsText(d: Details): string {
    match d
    case NoDetails => ""
    case Malformed(text) => text
    case Parsed(v) => Render(v)
  }

  /** Everything a row says: what the guards scan. */
  function FullText(e: Episode): string {
    e.step + " " + e.summary + " " + DetailsText(e.details)
  }

  // ----- Shapes -----

  function Names(fs: seq<Member>): set<string> {
    set f | f in fs :: f.name
  }

  /** Exactly these fields, in any order. */
  predicate HasFields(v: Value, names: set<string>) {
    v.Fields? && |v.fields| == |names| && Names(v.fields) == names
  }

  function Field(v: Value, name: string): Value
    requires v.Fields?
  {
    FieldOf(v.fields, name)
  }

  function FieldOf(fs: seq<Member>, name: string): Value {
    if fs == [] then Other("") else if fs[0].name == name then fs[0].value else FieldOf(fs[1..], name)
  }

  predicate IsSelectorHash(s: string) {
    |s| == 64 && forall i :: 0 <= i < 64 ==> '0' <= s[i] <= '9' || 'a' <= s[i] <= 'f' || 'A' <= s[i] <= 'F'
  }

  predicate IsSafeCount(v: Value) {
    v.Count? && v.n <= MAX_SAFE_INTEGER
  }

  const AUDIT_STEP := "right-to-forget"
  const AUDIT_SUMMARY := "Right-to-forget deletion completed"

  predicate HasAuditHead(e: Episode) {
    e.kind == Observation && e.step == AUDIT_STEP && e.summary == AUDIT_SUMMARY
  }

  /** The record a request leaves: fixed head, the selector's hash, and three counts. */
  predicate IsDeletionRecord(e: Episode) {
    && HasAuditHead(e)
    && e.details.Parsed?
    && HasFields(e.details.value, {"selectorHash", "deleted"})
    && Field(e.details.value, "selectorHash").Text?
    && IsSelectorHash(Field(e.details.value, "selectorHash").text)
    && HasFields(Field(e.details.value, "deleted"), {"working", "episodic", "derived"})
    && IsSafeCount(Field(Field(e.details.value, "deleted"), "working"))
    && IsSafeCount(Field(Field(e.details.value, "deleted"), "episodic"))
    && IsSafeCount(Field(Field(e.details.value, "deleted"), "derived"))
  }

  /** Details that are no JSON are read back as an envelope naming the row. */
  predicate IsMalformed(d: Details) {
    d.Malformed? && d.text != ""
  }

  predicate IsEnvelope(id: nat, d: Details) {
    && d.Parsed?
    && HasFields(d.value, {"quarantine"})
    && HasFields(Field(d.value, "quarantine"), {"field", "eventId", "reason"})
    && Field(Field(d.value, "quarantine"), "field") == Text("details")
    && Field(Field(d.value, "quarantine"), "eventId") == Count(id)
    && Field(Field(d.value, "quarantine"), "reason") == Text("invalid JSON")
  }

  /** The text a selector is compared with; none at all for the records requests leave. */
  function SelectorText(id: nat, e: Episode): Option<string> {
    if IsDeletionRecord(e) then None
    else if IsMalformed(e.details) then
      Some(if HasAuditHead(e) then "  " + e.details.text else FullText(e))
    else if IsEnvelope(id, e.details) then
      if HasAuditHead(e) then None else Some(e.step + " " + e.summary + " ")
    else Some(FullText(e))
  }

  /** The rows a selector does not see whole: records of requests, envelopes, and corrupt records. */
  predicate Exempt(id: nat, e: Episode) {
    IsDeletionRecord(e) || IsEnvelope(id, e.details) || (HasAuditHead(e) && IsMalformed(e.details))
  }

  lemma SeenWhole(id: nat, e: Episode)
    ensures !Exempt(id, e) ==> SelectorText(id, e) == Some(FullText(e))
  {
  }

  /** The envelope a row whose details are no JSON is rewritten with. */
  function Envelope(id: nat): Value {
    Fields([Member("quarantine",
                   Fields([Member("field", Text("details")), Member("eventId", Count(id)),
                           Member("reason", Text("invalid JSON"))]))])
  }

  lemma EnvelopeShape(id: nat)
    ensures var q := Field(Envelope(id), "quarantine");
            && HasFields(Envelope(id), {"quarantine"}) && HasFields(q, {"field", "eventId", "reason"})
            && Field(q, "field") == Text("details") && Field(q, "eventId") == Count(id)
            && Field(q, "reason") == Text("invalid JSON")
  {
    var outer := Envelope(id).fields;
    var fs := outer[0].value.fields;
    assert outer[0] in outer && fs[0] in fs && fs[1] in fs && fs[2] in fs;
    assert fs[1..][0] == fs[1] && fs[1..][1..][0] == fs[2];
    assert FieldOf(fs, "eventId") == FieldOf(fs[1..], "eventId");
    assert FieldOf(fs, "reason") == FieldOf(fs[1..], "reason") == FieldOf(fs[1..][1..], "reason");
  }

  /** The envelope counts for nothing in the row it names, and only there: its text is not the user's. */
  lemma EnvelopeIsNotSearched(id: nat, row: nat, kind: EventType, step: string, summary: string)
    requires step != AUDIT_STEP
    ensures var e := Episode(kind, step, summary, Parsed(Envelope(id)));
            SelectorText(row, e) == Some(if row == id then step + " " + summary + " " else FullText(e))
  {
    EnvelopeShape(id);
    hide HasFields, Field, Envelope, FullText;
  }

  /** Details that are no JSON are searched as they are stored. */
  lemma MalformedIsSearched(row: nat, kind: EventType, step: string, summary: string, text: string)
    requires text != ""
    ensures var e := Episode(kind, step, summary, Malformed(text));
            SelectorText(row, e) == Some(if HasAuditHead(e) then "  " + text else step + " " + summary + " " + text)
  {
  }

  // ----- The record of one request -----

  datatype Report = Report(selectorHash: string, working: nat, episodic: nat, derived: nat)

  predicate ValidReport(r: Report) {
    && IsSelectorHash(r.selectorHash)
    && r.working <= MAX_SAFE_INTEGER && r.episodic <= MAX_SAFE_INTEGER && r.derived <= MAX_SAFE_INTEGER
  }

  function CountFields(r: Report): seq<Member> {
    [Member("working", Count(r.working)), Member("episodic", Count(r.episodic)), Member("derived", Count(r.derived))]
  }

  function ReportFields(r: Report): seq<Member> {
    [Member("selectorHash", Text(r.selectorHash)), Member("deleted", Fields(CountFields(r)))]
  }

  function DeletionRecord(r: Report): Episode {
    Episode(Observation, AUDIT_STEP, AUDIT_SUMMARY, Parsed(Fields(ReportFields(r))))
  }

  lemma CountShape(r: Report)
    ensures var v := Fields(CountFields(r));
            && HasFields(v, {"working", "episodic", "derived"})
            && Field(v, "working") == Count(r.working)
            && Field(v, "episodic") == Count(r.episodic)
            && Field(v, "derived") == Count(r.derived)
  {
    var fs := CountFields(r);
    assert fs[0] in fs && fs[1] in fs && fs[2] in fs;
    assert fs[1..][0] == fs[1] && fs[1..][1..][0] == fs[2];
    assert FieldOf(fs, "episodic") == FieldOf(fs[1..], "episodic");
    assert FieldOf(fs, "derived") == FieldOf(fs[1..], "derived") == FieldOf(fs[1..][1..], "derived");
  }

  lemma ReportShape(r: Report)
    ensures var v := Fields(ReportFields(r));
            && HasFields(v, {"selectorHash", "deleted"})
            && Field(v, "selectorHash") == Text(r.selectorHash)
            && Field(v, "deleted") == Fields(CountFields(r))
  {
    hide CountFields;
    var fs := ReportFields(r);
    assert fs[0] in fs && fs[1] in fs;
    assert fs[1..][0] == fs[1];
    assert FieldOf(fs, "deleted") == FieldOf(fs[1..], "deleted");
  }

  /** What a request writes is what later requests leave alone. */
  lemma RecordIsExempt(r: Report)
    ensures IsDeletionRecord(DeletionRecord(r)) <==> ValidReport(r)
  {
    CountShape(r);
    ReportShape(r);
    hide HasFields, Field, CountFields, ReportFields, IsSelectorHash;
  }

  lemma RecordEndsVisibly(r: Report)
    ensures var text := FullText(DeletionRecord(r));
            |text| > 15 && text[..15] == AUDIT_STEP && text[|text| - 1] == '}'
  {
    hide RenderFields, ReportFields;
  }

  // ----- The text of that record -----

  predicate NeedsNoEscape(s: string) {
    forall i :: 0 <= i < |s| ==> s[i] as int >= 32 && s[i] != '"' && s[i] != '\\'
  }

  lemma {:induction false} PlainTextIsKept(s: string)
    requires NeedsNoEscape(s)
    ensures EscapedText(s) == s
    decreases |s|
  {
    if s != "" {
      PlainTextIsKept(s[1..]);
      assert s == [s[0]] + s[1..];
    }
  }

  function Labelled(name: string, text: string): string {
    "\"" + name + "\":" + text
  }

  lemma RenderedMember(m: Member, rest: seq<Member>)
    requires NeedsNoEscape(m.name)
    ensures RenderFields([m] + rest)
            == Labelled(m.name, Render(m.value)) + (if rest == [] then "" else "," + RenderFields(rest))
  {
    var fs := [m] + rest;
    assert fs[0] == m && fs[1..] == rest;
    PlainTextIsKept(m.name);
    hide EscapedText, Render;
    assert RenderFields([]) == "";
    var comma := if rest == [] then "" else ",";
    assert RenderFields(fs) == Quoted(m.name) + ":" + Render(m.value) + comma + RenderFields(rest);
  }

  function CountsText(r: Report): string {
    Labelled("working", Digits(r.working)) + "," + Labelled("episodic", Digits(r.episodic)) + ","
    + Labelled("derived", Digits(r.derived))
  }

  lemma CountsAreRendered(r: Report)
    ensures RenderFields(CountFields(r)) == CountsText(r)
  {
    hide RenderFields, Labelled, Digits;
    var fs := CountFields(r);
    RenderedMember(fs[2], []);
    RenderedMember(fs[1], [fs[2]]);
    RenderedMember(fs[0], [fs[1], fs[2]]);
    assert [fs[2]] + [] == [fs[2]] && [fs[1]] + [fs[2]] == [fs[1], fs[2]] && [fs[0]] + [fs[1], fs[2]] == fs;
  }

  function ReportText(r: Report): string {
    Labelled("selectorHash", "\"" + r.selectorHash + "\"") + ("," + Labelled("deleted", "{" + CountsText(r) + "}"))
  }

  lemma ReportIsRendered(r: Report)
    requires IsSelectorHash(r.selectorHash)
    ensures RenderFields(ReportFields(r)) == ReportText(r)
  {
    var h, counts := Member("selectorHash", Text(r.selectorHash)), Member("deleted", Fields(CountFields(r)));
    HashIsRendered(r.selectorHash);
    CountsAreRendered(r);
    TwoMembers(h, counts);
    hide RenderFields, Labelled, CountFields, CountsText, NeedsNoEscape, IsSelectorHash, Quoted;
    assert ReportFields(r) == [h, counts];
  }

  lemma TwoMembers(a: Member, b: Member)
    requires NeedsNoEscape(a.name) && NeedsNoEscape(b.name)
    ensures RenderFields([a, b]) == Labelled(a.name, Render(a.value)) + ("," + Labelled(b.name, Render(b.value)))
  {
    hide RenderFields, Labelled, Render, NeedsNoEscape;
    RenderedMember(b, []);
    RenderedMember(a, [b]);
    assert [b] + [] == [b] && [a] + [b] == [a, b];
    assert Labelled(b.name, Render(b.value)) + "" == Labelled(b.name, Render(b.value));
  }

  lemma HashIsRendered(hash: string)
    requires IsSelectorHash(hash)
    ensures Render(Text(hash)) == "\"" + hash + "\""
    ensures NeedsNoEscape("selectorHash") && NeedsNoEscape("deleted")
  {
    HashNeedsNoEscape(hash);
    PlainTextIsKept(hash);
    hide EscapedText, IsSelectorHash;
  }

  lemma HashNeedsNoEscape(hash: string)
    requires IsSelectorHash(hash)
    ensures NeedsNoEscape(hash)
  {
  }

  /** All a record can be found by: fixed words, the hash and three numbers. */
  lemma RecordIsFixedText(r: Report)
    requires IsSelectorHash(r.selectorHash)
    ensures FullText(DeletionRecord(r)) == AUDIT_STEP + " " + AUDIT_SUMMARY + " " + ("{" + ReportText(r) + "}")
  {
    ReportIsRendered(r);
    hide RenderFields, ReportText, ReportFields;
  }
}
