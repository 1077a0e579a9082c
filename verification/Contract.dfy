/** The contract every triage result satisfies, and the two doors through which results arrive: JSON
    that is validated, and text from a model that is stripped of code fences, parsed and validated. */
module Contract {
  import opened Domain
  import opened Text

  /** A decoded JSON document. */
  datatype Json =
    | JNull
    | JBool(b: bool)
    | JNumber(x: real)
    | JString(s: string)
    | JArray(elements: seq<Json>)
    | JObject(fields: map<string, Json>)

  datatype TriageResult = TriageResult(category: Category, priority: Priority, summary: string, confidence: real)

  datatype Option<+T> = None | Some(value: T)

  /** What a `TriageResult` promises its readers. */
  predicate Promised(r: TriageResult) {
    && 0 < |r.summary| <= SUMMARY_MAX
    && '\n' !in r.summary && '\r' !in r.summary
    && !IsSpace(r.summary[0]) && !IsSpace(r.summary[|r.summary| - 1])
    && 0.0 <= r.confidence <= 1.0
  }

  /** The field checks and the validator of `TriageResult`, in that order: the length limit is applied
      to the summary as given, the other rules to the stripped one. */
  function Construct(category: Category, priority: Priority, summary: string, confidence: real): Option<TriageResult> {
    var v := Strip(summary);
    if |summary| > SUMMARY_MAX || !(0.0 <= confidence <= 1.0) then None
    else if '\n' in v || '\r' in v || v == "" then None
    else Some(TriageResult(category, priority, v, confidence))
  }

  function CategoryValue(c: Category): (v: string)
    ensures 5 <= |v| <= 12 && forall i | 0 <= i < |v| :: 'a' <= v[i] <= 'z'
  {
    match c
    case Water => "water"
    case Electricity => "electricity"
    case Sanitation => "sanitation"
    case Roads => "roads"
    case Streetlights => "streetlights"
    case Other => "other"
  }

  function PriorityValue(p: Priority): string {
    match p case High => "high" case Normal => "normal" case Low => "low"
  }

  function ReadCategory(j: Json): Option<Category> {
    if !j.JString? then None
    else match j.s
      case "water" => Some(Water)
      case "electricity" => Some(Electricity)
      case "sanitation" => Some(Sanitation)
      case "roads" => Some(Roads)
      case "streetlights" => Some(Streetlights)
      case "other" => Some(Other)
      case _ => None
  }

  function ReadPriority(j: Json): Option<Priority> {
    if !j.JString? then None
    else match j.s
      case "high" => Some(High)
      case "normal" => Some(Normal)
      case "low" => Some(Low)
      case _ => None
  }

  /** Numbers in strings are the validation library's to read; the model takes its reader as given. */
  type FloatReader = string -> Option<real>

  function ReadConfidence(j: Json, float: FloatReader): Option<real> {
    match j
    case JNumber(x) => Some(x)
    case JBool(b) => Some(if b then 1.0 else 0.0)
    case JString(s) => float(s)
    case _ => None
  }

  const FIELDS := {"category", "priority", "summary", "confidence"}

  /** `TriageResult.model_validate`: exactly the four fields, each of its type and within bounds. */
  function Validate(j: Json, float: FloatReader): Option<TriageResult> {
    if !j.JObject? || j.fields.Keys != FIELDS || !j.fields["summary"].JString? then None
    else
      var category := ReadCategory(j.fields["category"]);
      var priority := ReadPriority(j.fields["priority"]);
      var confidence := ReadConfidence(j.fields["confidence"], float);
      if category.None? || priority.None? || confidence.None? then None
      else Construct(category.value, priority.value, j.fields["summary"].s, confidence.value)
  }

  /** `model_dump(mode="json")`. */
  function Dump(r: TriageResult): Json {
    JObject(map[
      "category" := JString(CategoryValue(r.category)),
      "priority" := JString(PriorityValue(r.priority)),
      "summary" := JString(r.summary),
      "confidence" := JNumber(r.confidence)])
  }

  /** The constructor admits nothing but results that keep the promise, and changes none that does. */
  lemma ConstructKeepsPromise(c: Category, p: Priority, s: string, x: real)
    ensures Construct(c, p, s, x).Some? ==> Promised(Construct(c, p, s, x).value)
    ensures Promised(TriageResult(c, p, s, x)) ==> Construct(c, p, s, x) == Some(TriageResult(c, p, s, x))
  {
    StripFixes(s);
  }

  /** The results validation can yield are exactly those that keep the promise; dumping one and
      validating the dump gives it back unchanged. */
  lemma DumpThenValidate(r: TriageResult, float: FloatReader)
    ensures Promised(r) <==> Validate(Dump(r), float) == Some(r)
  {
    StripFixes(r.summary);
  }

  lemma ValidateKeepsPromise(j: Json, float: FloatReader)
    ensures Validate(j, float).Some? ==> Promised(Validate(j, float).value)
  {
    if Validate(j, float).Some? {
      var s := j.fields["summary"].s;
      ConstructKeepsPromise(ReadCategory(j.fields["category"]).value, ReadPriority(j.fields["priority"]).value,
                            s, ReadConfidence(j.fields["confidence"], float).value);
    }
  }

  /** What is admitted, and as what: a summary of at most 140 characters as given that keeps the promise once
      stripped. */
  lemma ConstructExactly(c: Category, p: Priority, s: string, x: real, r: TriageResult)
    ensures Construct(c, p, s, x) == Some(r) <==>
      |s| <= 140 && r == TriageResult(c, p, Strip(s), x) && Promised(r)
  {
    StripFixes(s);
  }

  /** Exactly the documents that validate, and as what. */
  lemma ValidateExactly(j: Json, float: FloatReader, r: TriageResult)
    ensures Validate(j, float) == Some(r) <==>
      && j.JObject? && j.fields.Keys == {"category", "priority", "summary", "confidence"}
      && j.fields["category"] == JString(CategoryValue(r.category))
      && j.fields["priority"] == JString(PriorityValue(r.priority))
      && j.fields["summary"].JString? && |j.fields["summary"].s| <= 140 && Strip(j.fields["summary"].s) == r.summary
      && ReadConfidence(j.fields["confidence"], float) == Some(r.confidence)
      && Promised(r)
  {
    if j.JObject? && j.fields.Keys == FIELDS && j.fields["summary"].JString? {
      ReadersExact(j.fields["category"], j.fields["priority"], r.category, r.priority);
      var confidence := ReadConfidence(j.fields["confidence"], float);
      if confidence.Some? {
        ConstructExactly(r.category, r.priority, j.fields["summary"].s, confidence.value, r);
      }
    }
  }

  lemma ReadersExact(jc: Json, jp: Json, c: Category, p: Priority)
    ensures ReadCategory(jc) == Some(c) <==> jc == JString(CategoryValue(c))
    ensures ReadPriority(jp) == Some(p) <==> jp == JString(PriorityValue(p))
  {
  }

  /** Numbers are read as they are, booleans as 0 and 1, strings by the library. */
  lemma ConfidencesRead(x: real, float: FloatReader)
    ensures ReadConfidence(JNumber(x), float) == Some(x)
    ensures ReadConfidence(JBool(true), float) == Some(1.0) && ReadConfidence(JBool(false), float) == Some(0.0)
    ensures ReadConfidence(JNull, float).None?
  {
  }

  const FENCE := "```"

  /** The end of a match of ^```(?:json)?\s* at the front of `t`, or 0. */
  function LeadingFence(t: string): (i: nat)
    ensures i <= |t|
  {
    if !OccursAt(FENCE, t, 0) then 0
    else SkipSpace(t, if SpellsAt(t, 3, 7, "json") then 7 else 3)
  }

  /** `_FENCE.sub("", raw.strip())`: what is left between an opening and a closing code fence, either
      of which may be missing. */
  function Unfence(raw: string): string {
    var t := Strip(raw);
    var i := LeadingFence(t);
    if i + 3 <= |t| && OccursAt(FENCE, t, |t| - 3) then RStrip(t[i..|t| - 3]) else t[i..]
  }

  /** `parse_triage_json`, with the JSON decoder as a parameter; None stands for TriageMalformedOutput. */
  function ParseTriageJson(raw: string, loads: string -> Option<Json>, float: FloatReader): (r: Option<TriageResult>)
  {
    var data := loads(Unfence(raw));
    if data.None? then None else Validate(data.value, float)
  }

  /** The label of a fence: none, or "json" in any case. */
  predicate IsLabel(tag: string) {
    tag == "" || SpellsAt(tag, 0, |tag|, "json")
  }

  /** A fence around a JSON object's text is invisible: the same text reaches the decoder, however it
      is fenced, padded or labelled. */
  lemma FencesAreTransparent(obj: string, tag: string, before: string, after: string, left: string, right: string)
    requires |obj| > 0 && obj[0] == '{' && obj[|obj| - 1] == '}'
    requires AllSpace(before) && AllSpace(after) && AllSpace(left) && AllSpace(right) && IsLabel(tag)
    ensures Unfence(left + obj + right) == obj
    ensures Unfence(left + (FENCE + (tag + before + (obj + after + FENCE))) + right) == obj
  {
    var rest := tag + before + (obj + after + FENCE);
    UnfencePadded(left, obj, right);
    UnfenceBare(obj);
    assert (FENCE + rest)[0] == FENCE[0] && (FENCE + rest)[|FENCE + rest| - 1] == FENCE[2];
    UnfencePadded(left, FENCE + rest, right);
    UnfenceLabelled(obj, tag, before, after);
  }

  lemma UnfencePadded(left: string, s: string, right: string)
    requires AllSpace(left) && AllSpace(right) && s != "" && !IsSpace(s[0]) && !IsSpace(s[|s| - 1])
    ensures Unfence(left + s + right) == Unfence(s)
  {
    var padded := left + s + right;
    assert padded[|left|] == s[0] && padded[|left|..] == s + right;
    SkipSpaceIs(padded, 0, |left|);
    RStripPadded(s, right);
    StripFixes(s);
  }

  lemma UnfenceLabelled(obj: string, tag: string, before: string, after: string)
    requires |obj| > 0 && obj[0] == '{' && obj[|obj| - 1] == '}'
    requires AllSpace(before) && AllSpace(after) && IsLabel(tag)
    ensures Unfence(FENCE + (tag + before + (obj + after + FENCE))) == obj
  {
    var body := obj + after + FENCE;
    var rest := tag + before + body;
    assert body[0] == '{';
    LeadingFenceEnds(tag, before, body);
    TrailingFenceEnds(obj, after);
    assert rest[|tag| + |before|..] == body;
    UnfenceFenced(FENCE + rest, 3 + |tag| + |before|, body);
  }

  lemma UnfenceBare(obj: string)
    requires |obj| > 0 && obj[0] == '{' && obj[|obj| - 1] == '}'
    ensures Unfence(obj) == obj
  {
    StripFixes(obj);
    OccursElementwise(FENCE, obj, 0);
    assert obj[0 + 0] != FENCE[0];
    if |obj| >= 3 {
      OccursElementwise(FENCE, obj, |obj| - 3);
      assert obj[|obj| - 3 + 2] != FENCE[2];
    }
  }

  lemma UnfenceFenced(t: string, i: nat, after: string)
    requires FENCE <= t && LeadingFence(t) == i && 3 <= i <= |t| && t[i..] == after
    requires |after| >= 3 && after[|after| - 3..] == FENCE
    ensures Unfence(t) == RStrip(after[..|after| - 3])
  {
    hide LeadingFence, RStrip, IsSpace;
    FencedEnds(t, i, after);
    StripFixes(t);
    assert t[i..|t| - 3] == after[..|after| - 3];
  }

  lemma FencedEnds(t: string, i: nat, after: string)
    requires FENCE <= t && 3 <= i <= |t| && t[i..] == after && |after| >= 3 && after[|after| - 3..] == FENCE
    ensures !IsSpace(t[0]) && !IsSpace(t[|t| - 1]) && OccursAt(FENCE, t, |t| - 3)
  {
    assert t[0] == FENCE[0] && t[|t| - 1] == after[|after| - 3..][2];
    assert t[|t| - 3..|t|] == after[|after| - 3..];
  }

  lemma TrailingFenceEnds(obj: string, pad: string)
    requires AllSpace(pad) && obj != "" && !IsSpace(obj[|obj| - 1])
    ensures var after := obj + pad + FENCE;
      after[|after| - 3..] == FENCE && after[..|after| - 3] == obj + pad && RStrip(obj + pad) == obj
  {
    RStripPadded(obj, pad);
  }

  lemma LeadingFenceEnds(tag: string, pad: string, body: string)
    requires AllSpace(pad) && IsLabel(tag) && body != "" && body[0] == '{'
    ensures LeadingFence(FENCE + (tag + pad + body)) == 3 + |tag| + |pad|
  {
    var rest, k := tag + pad + body, 3 + |tag|;
    var t := FENCE + rest;
    assert t[0..3] == FENCE;
    LabelSpelled(t, tag, pad, body);
    assert forall i | k <= i < k + |pad| :: t[i] == pad[i - k];
    assert t[k + |pad|] == body[0];
    SkipSpaceIs(t, k, k + |pad|);
  }

  lemma LabelSpelled(t: string, tag: string, pad: string, body: string)
    requires AllSpace(pad) && IsLabel(tag) && body != "" && body[0] == '{'
    requires t == FENCE + (tag + pad + body)
    ensures SpellsAt(t, 3, 7, "json") <==> tag != ""
  {
    if tag == "" {
      assert t[3 + 0] == if pad == "" then body[0] else pad[0];
      assert !SameLetter(t[3 + 0], "json"[0]);
    } else {
      assert forall i | 0 <= i < 4 :: t[3 + i] == tag[i];
    }
  }

  lemma {:induction false} RStripPadded(s: string, pad: string)
    requires AllSpace(pad) && s != "" && !IsSpace(s[|s| - 1])
    ensures RStrip(s + pad) == s
  {
    if pad == "" {
      assert s + pad == s;
    } else {
      assert (s + pad)[..|s + pad| - 1] == s + pad[..|pad| - 1];
      RStripPadded(s, pad[..|pad| - 1]);
    }
  }

  // ---------------------------------------------------------------- citizen input

  datatype ComplaintCreate = ComplaintCreate(text: string, location: string, contact: Option<string>)

  /** The validation library trims Unicode white space, which, unlike `str.isspace`, excludes the four
      ASCII separators. */
  predicate IsInputSpace(c: char) {
    IsSpace(c) && !('\U{1c}' <= c <= '\U{1f}')
  }

  function TrimStart(s: string): string {
    if s == "" || !IsInputSpace(s[0]) then s else TrimStart(s[1..])
  }

  function TrimEnd(s: string): string {
    if s == "" || !IsInputSpace(s[|s| - 1]) then s else TrimEnd(s[..|s| - 1])
  }

  function Trim(s: string): string {
    TrimEnd(TrimStart(s))
  }

  /** `ComplaintCreate`: fields are trimmed, then measured; a blank contact counts as none. */
  function Accept(text: string, location: string, contact: Option<string>): Option<ComplaintCreate> {
    var t, l, c := Trim(text), Trim(location), if contact.None? then "" else Trim(contact.value);
    if TEXT_MIN <= |t| <= TEXT_MAX && LOCATION_MIN <= |l| <= LOCATION_MAX && |c| <= CONTACT_MAX
    then Some(ComplaintCreate(t, l, if c == "" then None else Some(c)))
    else None
  }

  /** What is known of accepted input. */
  predicate Accepted(d: ComplaintCreate) {
    && TEXT_MIN <= |d.text| <= TEXT_MAX && !IsInputSpace(d.text[0]) && !IsInputSpace(d.text[|d.text| - 1])
    && LOCATION_MIN <= |d.location| <= LOCATION_MAX
    && !IsInputSpace(d.location[0]) && !IsInputSpace(d.location[|d.location| - 1])
    && (d.contact.Some? ==> (
          && 0 < |d.contact.value| <= CONTACT_MAX
          && !IsInputSpace(d.contact.value[0]) && !IsInputSpace(d.contact.value[|d.contact.value| - 1])))
  }

  /** The input that passes is exactly the input that is already in its accepted form, once trimmed. */
  lemma AcceptYieldsAccepted(text: string, location: string, contact: Option<string>)
    ensures Accept(text, location, contact).Some? ==> Accepted(Accept(text, location, contact).value)
    ensures Accepted(ComplaintCreate(text, location, contact)) ==>
      Accept(text, location, contact) == Some(ComplaintCreate(text, location, contact))
  {
    TrimEnds(text);
    TrimEnds(location);
    if contact.Some? { TrimEnds(contact.value); }
  }

  /** What is trimmed is white space at the two ends and nothing else. */
  lemma {:induction false} TrimSplits(s: string) returns (left: string, right: string)
    ensures s == left + Trim(s) + right
    ensures forall i | 0 <= i < |left| :: IsInputSpace(left[i])
    ensures forall i | 0 <= i < |right| :: IsInputSpace(right[i])
    ensures Trim(s) != "" ==> !IsInputSpace(Trim(s)[0]) && !IsInputSpace(Trim(s)[|Trim(s)| - 1])
  {
    left := TrimStartSplits(s);
    right := TrimEndSplits(TrimStart(s));
    TrimEnds(s);
    assert s == left + (Trim(s) + right) == left + Trim(s) + right;
  }

  lemma {:induction false} TrimStartSplits(s: string) returns (left: string)
    ensures s == left + TrimStart(s) && forall i | 0 <= i < |left| :: IsInputSpace(left[i])
  {
    left := "";
    if s != "" && IsInputSpace(s[0]) {
      var rest := TrimStartSplits(s[1..]);
      left := [s[0]] + rest;
    }
  }

  lemma {:induction false} TrimEndSplits(s: string) returns (right: string)
    ensures s == TrimEnd(s) + right && forall i | 0 <= i < |right| :: IsInputSpace(right[i])
  {
    right := "";
    if s != "" && IsInputSpace(s[|s| - 1]) {
      var rest := TrimEndSplits(s[..|s| - 1]);
      right := rest + [s[|s| - 1]];
    }
  }

  /** Exactly the input that is accepted, and as what. */
  lemma AcceptExactly(text: string, location: string, contact: Option<string>, d: ComplaintCreate)
    ensures Accept(text, location, contact) == Some(d) <==>
      && d.text == Trim(text) && 10 <= |d.text| <= 2000
      && d.location == Trim(location) && 3 <= |d.location| <= 200
      && (if contact.None? || Trim(contact.value) == "" then d.contact.None?
          else d.contact == Some(Trim(contact.value)) && |Trim(contact.value)| <= 200)
  {
  }

  lemma TrimEnds(s: string)
    ensures var t := Trim(s); t != "" ==> !IsInputSpace(t[0]) && !IsInputSpace(t[|t| - 1])
    ensures s != "" && !IsInputSpace(s[0]) && !IsInputSpace(s[|s| - 1]) ==> Trim(s) == s
  {
    TrimStartEnds(s);
    TrimEndEnds(TrimStart(s));
  }

  lemma {:induction false} TrimStartEnds(s: string)
    ensures var t := TrimStart(s); t != "" ==> !IsInputSpace(t[0])
  {
    if s != "" && IsInputSpace(s[0]) { TrimStartEnds(s[1..]); }
  }

  lemma {:induction false} TrimEndEnds(s: string)
    ensures var t := TrimEnd(s); t <= s && (t != "" ==> !IsInputSpace(t[|t| - 1]))
  {
    if s != "" && IsInputSpace(s[|s| - 1]) { TrimEndEnds(s[..|s| - 1]); }
  }
}
