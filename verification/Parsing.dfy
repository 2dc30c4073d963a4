/** Reading a grading response (`llm/parsers.py`), from an already decoded JSON value.

`str()` of a value that is not a string and `int()` of a string are Python's own and stay abstract;
scores are finite numbers.
 */
module Parsing {
  import opened Outcomes
  import opened Text

  datatype Json =
    | JNull
    | JBool(b: bool)
    | JInt(n: int)
    | JFloat(x: real)
    | JStr(s: string)
    | JArr(items: seq<Json>)
    | JObj(fields: map<string, Json>)

  datatype Python = Python(show: Json -> string, parseInt: string -> Option<int>)

  const MIN_JUSTIFICATION_LENGTH := 20
  const FALLBACK_JUSTIFICATION := "No justification provided."
  const FALLBACK_SUMMARY := "No summary feedback provided."
  const FALLBACK_FEEDBACK := "No feedback note provided."

  datatype Confidence = High | Medium | Low

  datatype CriterionInfo = CriterionInfo(id: string, minScore: int, maxScore: int)

  datatype CriterionScore = CriterionScore(
    id: string, score: Option<int>, justification: string, confidence: Confidence,
    feedback: string, clamped: bool, needsReview: bool, rawScore: Option<int>)

  datatype Response = Response(scores: seq<CriterionScore>, summary: string)

  datatype ParseError = NotAnObject | NoScores | ScoresNotAnArray

  // ---------------------------------------------------------------------------
  // Python's reading of a JSON value
  // ---------------------------------------------------------------------------

  function Str(py: Python, v: Json): string {
    if v.JStr? then v.s else py.show(v)
  }

  predicate Truthy(v: Json) {
    match v
    case JNull => false
    case JBool(b) => b
    case JInt(n) => n != 0
    case JFloat(x) => x != 0.0
    case JStr(s) => s != ""
    case JArr(items) => items != []
    case JObj(fields) => fields != map[]
  }

  /** `int(x)` of a float drops the fraction, whatever the sign. */
  function Truncate(x: real): int {
    if x >= 0.0 then x.Floor else -(-x).Floor
  }

  /** None when the score is missing, of another type, or not a number. A bool counts as an int. */
  function ReadScore(py: Python, v: Json): Option<int> {
    match v
    case JBool(b) => Some(if b then 1 else 0)
    case JInt(n) => Some(n)
    case JFloat(x) => Some(Truncate(x))
    case JStr(s) => py.parseInt(s)
    case _ => None
  }

  function Get(fields: map<string, Json>, key: string, default: Json): Json {
    if key in fields then fields[key] else default
  }

  /** The text of a value, empty when the value is falsy. */
  function TextOf(py: Python, v: Json): string {
    if Truthy(v) then Str(py, v) else ""
  }

  function ConfidenceOf(s: string): Confidence {
    if s == "high" then High else if s == "medium" then Medium else Low
  }

  function Name(c: Confidence): string {
    match c
    case High => "high"
    case Medium => "medium"
    case Low => "low"
  }

  // ---------------------------------------------------------------------------
  // What a response says about one criterion
  // ---------------------------------------------------------------------------

  function MissingScore(info: CriterionInfo): CriterionScore {
    CriterionScore(info.id, None, FALLBACK_JUSTIFICATION, Low, "", false, true, None)
  }

  predicate InRange(n: int, info: CriterionInfo) {
    info.minScore <= n <= info.maxScore
  }

  /** The in-range value nearest to `n`. */
  function Clamp(n: int, info: CriterionInfo): int {
    if n < info.minScore then info.minScore else if n > info.maxScore then info.maxScore else n
  }

  function Justification(py: Python, item: map<string, Json>): string {
    TextOf(py, Get(item, "justification", JStr("")))
  }

  predicate TooShort(justification: string) {
    |Strip(justification)| < MIN_JUSTIFICATION_LENGTH
  }

  function StatedConfidence(py: Python, item: map<string, Json>): Confidence {
    ConfidenceOf(Str(py, Get(item, "confidence", JStr("low"))))
  }

  /** Empty only when the response has no such field. */
  function Feedback(py: Python, item: map<string, Json>): string {
    if "feedback" !in item then ""
    else
      var note := Strip(TextOf(py, item["feedback"]));
      if note == "" then FALLBACK_FEEDBACK else note
  }

  /** The score an entry gives, given how its parts read. */
  function Assemble(info: CriterionInfo, raw: Option<int>, justification: string, stated: Confidence,
                    feedback: string): CriterionScore {
    var n := if raw.Some? then raw.value else info.minScore;
    var clamped := raw.None? || !InRange(n, info);
    CriterionScore(info.id, Some(Clamp(n, info)),
                   if TooShort(justification) then FALLBACK_JUSTIFICATION else justification,
                   if clamped then Low else stated,
                   feedback, clamped, clamped || TooShort(justification), raw)
  }

  function ScoreOf(py: Python, info: CriterionInfo, entry: Option<map<string, Json>>): CriterionScore {
    match entry
    case None => MissingScore(info)
    case Some(item) =>
      Assemble(info, ReadScore(py, Get(item, "score", JNull)), Justification(py, item), StatedConfidence(py, item),
          Feedback(py, item))
  }

  function Summary(py: Python, fields: map<string, Json>): string {
    var text := Strip(TextOf(py, Get(fields, "summary_feedback", JStr(""))));
    if text == "" then FALLBACK_SUMMARY else text
  }

  // ---------------------------------------------------------------------------
  // Looking entries up
  // ---------------------------------------------------------------------------

  predicate IsEntry(py: Python, v: Json, id: string) {
    v.JObj? && "criterion_id" in v.fields && Str(py, v.fields["criterion_id"]) == id
  }

  function LastEntry(py: Python, items: seq<Json>, id: string): Option<map<string, Json>> {
    if items == [] then None
    else
      var last := items[|items| - 1];
      if IsEntry(py, last, id) then Some(last.fields) else LastEntry(py, items[..|items| - 1], id)
  }

  /** The specification of a parse. */
  function Parse(py: Python, data: Json, criteria: seq<CriterionInfo>): Result<Response, ParseError> {
    if !data.JObj? then Err(NotAnObject)
    else if "criterion_scores" !in data.fields then Err(NoScores)
    else if !data.fields["criterion_scores"].JArr? then Err(ScoresNotAnArray)
    else Ok(Read(py, data.fields["criterion_scores"].items, data.fields, criteria))
  }

  function Read(py: Python, items: seq<Json>, fields: map<string, Json>, criteria: seq<CriterionInfo>): Response {
    Response(seq(|criteria|, i requires 0 <= i < |criteria| =>
                   ScoreOf(py, criteria[i], LastEntry(py, items, criteria[i].id))),
             Summary(py, fields))
  }

  // ---------------------------------------------------------------------------
  // The parser
  // ---------------------------------------------------------------------------

  method ParseGradingResponse(py: Python, data: Json, criteria: seq<CriterionInfo>)
    returns (result: Result<Response, ParseError>)
    ensures result == Parse(py, data, criteria)
    ensures result == Err(NotAnObject) <==> !data.JObj?
    ensures result == Err(NoScores) <==> data.JObj? && "criterion_scores" !in data.fields
    ensures result.Ok? <==> data.JObj? && "criterion_scores" in data.fields && data.fields["criterion_scores"].JArr?
    ensures result.Ok? ==> Says(py, data.fields["criterion_scores"].items, data.fields, criteria, result.value)
  {
    ParseSays(py, data, criteria);
    hide Summary, ScoreOf, LastEntry, Says;
    if !data.JObj? {
      return Err(NotAnObject);
    }
    if "criterion_scores" !in data.fields {
      return Err(NoScores);
    }
    if !data.fields["criterion_scores"].JArr? {
      return Err(ScoresNotAnArray);
    }
    var items := data.fields["criterion_scores"].items;
    var returned := Lookup(py, items);
    var scores: seq<CriterionScore> := [];
    for i := 0 to |criteria|
      invariant |scores| == i
      invariant forall j :: 0 <= j < i ==> scores[j] == ScoreOf(py, criteria[j], LastEntry(py, items, criteria[j].id))
    {
      var info := criteria[i];
      var score;
      if info.id in returned {
        score := ReadEntry(py, info, returned[info.id]);
      } else {
        score := ScoreOf(py, info, None);
      }
      assert score == ScoreOf(py, info, LastEntry(py, items, info.id));
      scores := scores + [score];
    }
    var summary := Summary(py, data.fields);
    result := Ok(Response(scores, summary));
    assert scores == Read(py, items, data.fields, criteria).scores;
  }

  method Lookup(py: Python, items: seq<Json>) returns (returned: map<string, map<string, Json>>)
    ensures forall id :: LastEntry(py, items, id) == if id in returned then Some(returned[id]) else None
  {
    returned := map[];
    for i := 0 to |items|
      invariant forall id :: LastEntry(py, items[..i], id) == if id in returned then Some(returned[id]) else None
    {
      assert items[..i + 1][..i] == items[..i];
      var item := items[i];
      if item.JObj? && "criterion_id" in item.fields {
        var cid := Str(py, item.fields["criterion_id"]);
        returned := returned[cid := item.fields];
      }
    }
    assert items[..|items|] == items;
  }

  method ReadEntry(py: Python, info: CriterionInfo, item: map<string, Json>) returns (result: CriterionScore)
    ensures result == ScoreOf(py, info, Some(item))
  {
    hide Strip;
    var clamped, needsReview := false, false;
    var raw := ReadScore(py, Get(item, "score", JNull));
    var score;
    if raw.Some? {
      score := raw.value;
    } else {
      score, clamped, needsReview := info.minScore, true, true;
    }
    if score < info.minScore {
      score, clamped := info.minScore, true;
    } else if score > info.maxScore {
      score, clamped := info.maxScore, true;
    }
    if clamped {
      needsReview := true;
    }
    var justification := TextOf(py, Get(item, "justification", JStr("")));
    if |Strip(justification)| < MIN_JUSTIFICATION_LENGTH {
      justification, needsReview := FALLBACK_JUSTIFICATION, true;
    }
    var confidence := ConfidenceOf(Str(py, Get(item, "confidence", JStr("low"))));
    if clamped {
      confidence := Low;
    }
    var feedback := "";
    if "feedback" in item {
      feedback := Strip(TextOf(py, item["feedback"]));
      if feedback == "" {
        feedback := FALLBACK_FEEDBACK;
      }
    }
    return CriterionScore(info.id, Some(score), justification, confidence, feedback, clamped, needsReview, raw);
  }

  // ---------------------------------------------------------------------------
  // What a parse depends on
  // ---------------------------------------------------------------------------

  predicate IsLastAt(py: Python, items: seq<Json>, id: string, i: nat)
    requires i < |items|
  {
    IsEntry(py, items[i], id) && forall j :: i < j < |items| ==> !IsEntry(py, items[j], id)
  }

  lemma {:induction false} LastEntryAt(py: Python, items: seq<Json>, id: string)
    ensures LastEntry(py, items, id).None? <==> forall i :: 0 <= i < |items| ==> !IsEntry(py, items[i], id)
    ensures forall i :: 0 <= i < |items| && IsLastAt(py, items, id, i) ==>
            LastEntry(py, items, id) == Some(items[i].fields)
  {
    hide IsEntry;
    if items != [] {
      var init := items[..|items| - 1];
      LastEntryAt(py, init, id);
      assert forall i :: 0 <= i < |init| ==> init[i] == items[i];
      forall i | 0 <= i < |init| && IsLastAt(py, items, id, i)
        ensures IsLastAt(py, init, id, i)
      {
      }
      assert |items| - 1 >= 0;
    }
  }

  /** Two responses parse alike as soon as they agree on the summary and on the last entry of every
      expected criterion. */
  lemma ParseDependsOnLastEntries(py: Python, a: Json, b: Json, criteria: seq<CriterionInfo>)
    requires Parse(py, a, criteria).Ok? && Parse(py, b, criteria).Ok?
    requires forall c :: c in criteria ==>
      LastEntry(py, a.fields["criterion_scores"].items, c.id) == LastEntry(py, b.fields["criterion_scores"].items, c.id)
    requires Get(a.fields, "summary_feedback", JStr("")) == Get(b.fields, "summary_feedback", JStr(""))
    ensures Parse(py, a, criteria) == Parse(py, b, criteria)
  {
    hide Strip, LastEntry, ScoreOf;
    assert Parse(py, a, criteria).value.scores == Parse(py, b, criteria).value.scores;
  }

  /** An entry is without effect when it names no criterion, an unexpected one, or one that a later
      entry names again. */
  lemma ExtraEntryIgnored(py: Python, before: seq<Json>, extra: Json, after: seq<Json>,
                          fields: map<string, Json>, criteria: seq<CriterionInfo>)
    requires forall c :: c in criteria && IsEntry(py, extra, c.id) ==>
            exists j :: 0 <= j < |after| && IsEntry(py, after[j], c.id)
    ensures Read(py, before + [extra] + after, fields, criteria) == Read(py, before + after, fields, criteria)
  {
    hide ScoreOf, Summary, IsEntry, LastEntry;
    forall i | 0 <= i < |criteria|
      ensures LastEntry(py, before + [extra] + after, criteria[i].id) == LastEntry(py, before + after, criteria[i].id)
    {
      assert criteria[i] in criteria;
      LastEntryConcat(py, before + [extra], after, criteria[i].id);
      LastEntryConcat(py, before, after, criteria[i].id);
      LastEntryConcat(py, before, [extra], criteria[i].id);
      LastEntryAt(py, after, criteria[i].id);
      LastEntryAt(py, [extra], criteria[i].id);
    }
    assert Read(py, before + [extra] + after, fields, criteria).scores ==
            Read(py, before + after, fields, criteria).scores;
  }

  lemma {:induction false} LastEntryConcat(py: Python, a: seq<Json>, b: seq<Json>, id: string)
    ensures LastEntry(py, a + b, id) ==
            if LastEntry(py, b, id).Some? then LastEntry(py, b, id) else LastEntry(py, a, id)
  {
    hide IsEntry;
    if b == [] {
      assert a + b == a;
    } else {
      assert (a + b)[|a + b| - 1] == b[|b| - 1];
      assert (a + b)[..|a + b| - 1] == a + b[..|b| - 1];
      LastEntryConcat(py, a, b[..|b| - 1], id);
    }
  }

  ghost predicate DistinctEntries(py: Python, items: seq<Json>) {
    forall i, j, id :: 0 <= i < j < |items| && IsEntry(py, items[i], id) ==> !IsEntry(py, items[j], id)
  }

  /** Entries that name different criteria may come in any order. */
  lemma EntryOrderIgnored(py: Python, a: seq<Json>, b: seq<Json>, fields: map<string, Json>,
                          criteria: seq<CriterionInfo>)
    requires DistinctEntries(py, a) && DistinctEntries(py, b) && multiset(a) == multiset(b)
    ensures Read(py, a, fields, criteria) == Read(py, b, fields, criteria)
  {
    hide ScoreOf, Summary, IsEntry, LastEntry;
    forall i | 0 <= i < |criteria|
      ensures LastEntry(py, a, criteria[i].id) == LastEntry(py, b, criteria[i].id)
    {
      LastEntryOfPermutation(py, a, b, criteria[i].id);
    }
    assert Read(py, a, fields, criteria).scores == Read(py, b, fields, criteria).scores;
  }

  lemma LastEntryOfPermutation(py: Python, a: seq<Json>, b: seq<Json>, id: string)
    requires DistinctEntries(py, a) && DistinctEntries(py, b) && multiset(a) == multiset(b)
    ensures LastEntry(py, a, id) == LastEntry(py, b, id)
  {
    hide IsEntry, LastEntry;
    LastEntryAt(py, a, id);
    LastEntryAt(py, b, id);
    forall i | 0 <= i < |a| && IsEntry(py, a[i], id)
      ensures LastEntry(py, a, id) == LastEntry(py, b, id)
    {
      assert a[i] in multiset(b);
      var j :| 0 <= j < |b| && b[j] == a[i];
      assert IsLastAt(py, a, id, i) && IsLastAt(py, b, id, j);
    }
    if forall i :: 0 <= i < |a| ==> !IsEntry(py, a[i], id) {
      forall j | 0 <= j < |b|
        ensures !IsEntry(py, b[j], id)
      {
        assert b[j] in multiset(a);
        var i :| 0 <= i < |a| && a[i] == b[j];
      }
    }
  }

  // ---------------------------------------------------------------------------
  // What a parse returns
  // ---------------------------------------------------------------------------

  predicate GoodRange(info: CriterionInfo) {
    info.minScore <= info.maxScore
  }

  /** One result per criterion, in rubric order; a score is absent exactly when the response has no
      entry for it, and otherwise lies in range, being the response's own score where that is in range. */
  lemma ParseCoversRubric(py: Python, items: seq<Json>, fields: map<string, Json>, criteria: seq<CriterionInfo>, i: nat)
    requires i < |criteria| && GoodRange(criteria[i])
    ensures |Read(py, items, fields, criteria).scores| == |criteria|
    ensures var c := Read(py, items, fields, criteria).scores[i];
            && c.id == criteria[i].id
            && (c.score.None? <==> forall j :: 0 <= j < |items| ==> !IsEntry(py, items[j], c.id))
            && (c.score.Some? ==> InRange(c.score.value, criteria[i]))
            && (c.score.Some? && !c.clamped ==> c.rawScore == c.score)
            && (c.score.Some? && c.clamped ==> c.rawScore.None? || !InRange(c.rawScore.value, criteria[i]))
            && (c.clamped || c.score.None? ==> c.confidence == Low && c.needsReview)
            && |Strip(c.justification)| >= MIN_JUSTIFICATION_LENGTH
  {
    hide Strip, IsEntry, LastEntry;
    LastEntryAt(py, items, criteria[i].id);
    FallbackJustificationIsLong();
  }

  /** An entry needs review exactly when its score is unreadable or out of range or its justification
      is too short; otherwise all it says is kept. A score that has to move moves as little as it can. */
  lemma EntryKept(py: Python, info: CriterionInfo, item: map<string, Json>)
    requires GoodRange(info)
    ensures var c := ScoreOf(py, info, Some(item));
            var raw := ReadScore(py, Get(item, "score", JNull));
            && (!c.needsReview <==> raw.Some? && InRange(raw.value, info) && !TooShort(Justification(py, item)))
            && (!c.needsReview ==> c.score == raw && c.justification == Justification(py, item)
                                   && c.confidence == StatedConfidence(py, item))
            && (raw.None? ==> c.score == Some(info.minScore))
            && (raw.Some? ==> forall v :: InRange(v, info) ==>
                Distance(c.score.value, raw.value) <= Distance(v, raw.value))
            && (c.feedback == "" <==> "feedback" !in item)
            && (!c.clamped ==> c.confidence == StatedConfidence(py, item))
            && (!TooShort(Justification(py, item)) ==> c.justification == Justification(py, item))
  {
    hide Strip;
  }

  function Distance(a: int, b: int): nat {
    if a < b then b - a else a - b
  }

  lemma FallbackJustificationIsLong()
    ensures Strip(FALLBACK_JUSTIFICATION) == FALLBACK_JUSTIFICATION
    ensures |FALLBACK_JUSTIFICATION| >= MIN_JUSTIFICATION_LENGTH
  {
    StripNoop(FALLBACK_JUSTIFICATION);
  }

  lemma StripNoop(s: string)
    requires s == "" || (!IsSpace(s[0]) && !IsSpace(s[|s| - 1]))
    ensures Strip(s) == s
  {
    assert SpaceRun(s) == 0;
    RStripNoop(s);
  }

  lemma StripTwice(s: string)
    ensures Strip(Strip(s)) == Strip(s)
  {
    var l := LStrip(s);
    var r := RStrip(l);
    hide IsSpace;
    assert l == "" || !IsSpace(l[0]);
    assert r == "" || (r[0] == l[0] && !IsSpace(r[|r| - 1]));
    StripNoop(r);
  }

  // ---------------------------------------------------------------------------
  // What a parse says of the response, field by field
  // ---------------------------------------------------------------------------

  /** Python takes these values for false. */
  predicate IsFalsy(v: Json) {
    || v == JNull || v == JBool(false) || v == JInt(0) || v == JFloat(0.0)
    || v == JStr("") || v == JArr([]) || v == JObj(map[])
  }

  predicate IsShown(py: Python, v: Json, text: string) {
    if v.JStr? then text == v.s else text == py.show(v)
  }

  predicate Mentions(py: Python, v: Json, id: string) {
    v.JObj? && "criterion_id" in v.fields && IsShown(py, v.fields["criterion_id"], id)
  }

  /** `n` is `x` without its fraction, of the same sign. */
  predicate DropsFraction(x: real, n: int) {
    if x >= 0.0 then 0 <= n && n as real <= x < n as real + 1.0 else n <= 0 && n as real - 1.0 < x <= n as real
  }

  /** The number a score field stands for, if any: bools, integers, numbers and the strings Python reads do. */
  predicate IsScoreRead(py: Python, item: map<string, Json>, raw: Option<int>) {
    if "score" !in item then raw.None?
    else
      var v := item["score"];
      && (raw.Some? <==> v.JBool? || v.JInt? || v.JFloat? || (v.JStr? && py.parseInt(v.s).Some?))
      && (v.JBool? ==> raw == Some(if v.b then 1 else 0))
      && (v.JInt? ==> raw == Some(v.n))
      && (v.JFloat? && raw.Some? ==> DropsFraction(v.x, raw.value))
      && (v.JStr? && raw.Some? ==> raw == py.parseInt(v.s))
  }

  /** The score is the one read, or the least one if none is; outside the range, the bound it passed. */
  predicate IsScoreStored(info: CriterionInfo, c: CriterionScore) {
    var n := if c.rawScore.Some? then c.rawScore.value else info.minScore;
    && c.score == Some(if n < info.minScore then info.minScore else if n > info.maxScore then info.maxScore else n)
    && (c.clamped <==> c.rawScore.None? || n < info.minScore || n > info.maxScore)
  }

  /** The justification is kept, as it stands, when at least 20 characters of it are left without the white
      space around it. */
  ghost predicate IsJustification(py: Python, item: map<string, Json>, c: CriterionScore) {
    if "justification" !in item || IsFalsy(item["justification"]) then
      c.justification == FALLBACK_JUSTIFICATION && c.needsReview
    else
      exists text | IsShown(py, item["justification"], text) ::
        && c.justification == (if |Strip(text)| >= 20 then text else FALLBACK_JUSTIFICATION)
        && (c.needsReview <==> c.clamped || |Strip(text)| < 20)
  }

  predicate IsConfidence(py: Python, item: map<string, Json>, c: CriterionScore) {
    && (c.confidence == High <==> !c.clamped && "confidence" in item && IsShown(py, item["confidence"], "high"))
    && (c.confidence == Medium <==> !c.clamped && "confidence" in item && IsShown(py, item["confidence"], "medium"))
  }

  /** A note is kept without the white space around it, or replaced when nothing is left. */
  ghost predicate IsNote(py: Python, v: Json, note: string, fallback: string) {
    if IsFalsy(v) then note == fallback
    else exists text | IsShown(py, v, text) :: note == if Strip(text) == "" then fallback else Strip(text)
  }

  ghost predicate IsFeedback(py: Python, item: map<string, Json>, c: CriterionScore) {
    if "feedback" !in item then c.feedback == "" else IsNote(py, item["feedback"], c.feedback, FALLBACK_FEEDBACK)
  }

  ghost predicate SaysEntry(py: Python, info: CriterionInfo, item: map<string, Json>, c: CriterionScore) {
    && c.id == info.id && IsScoreRead(py, item, c.rawScore) && IsScoreStored(info, c)
    && IsJustification(py, item, c) && IsConfidence(py, item, c) && IsFeedback(py, item, c)
  }

  predicate MentionedLast(py: Python, items: seq<Json>, id: string, j: nat) {
    j < |items| && Mentions(py, items[j], id) && forall k :: j < k < |items| ==> !Mentions(py, items[k], id)
  }

  /** One criterion: what its last entry says, or a missing score. */
  ghost predicate SaysCriterion(py: Python, items: seq<Json>, info: CriterionInfo, c: CriterionScore) {
    && ((forall j :: 0 <= j < |items| ==> !Mentions(py, items[j], info.id)) ==>
          c == CriterionScore(info.id, None, FALLBACK_JUSTIFICATION, Low, "", false, true, None))
    && (forall j: nat :: MentionedLast(py, items, info.id, j) ==> SaysEntry(py, info, items[j].fields, c))
  }

  ghost predicate Says(py: Python, items: seq<Json>, fields: map<string, Json>, criteria: seq<CriterionInfo>,
                       r: Response) {
    && |r.scores| == |criteria|
    && (forall i :: 0 <= i < |criteria| ==> SaysCriterion(py, items, criteria[i], r.scores[i]))
    && (if "summary_feedback" in fields then IsNote(py, fields["summary_feedback"], r.summary, FALLBACK_SUMMARY)
        else r.summary == FALLBACK_SUMMARY)
  }

  lemma ScoreRead(py: Python, item: map<string, Json>)
    ensures IsScoreRead(py, item, ReadScore(py, Get(item, "score", JNull)))
  {
  }

  lemma TextShown(py: Python, v: Json)
    ensures IsFalsy(v) ==> TextOf(py, v) == ""
    ensures !IsFalsy(v) ==> IsShown(py, v, TextOf(py, v))
    ensures IsShown(py, v, Str(py, v))
  {
  }

  lemma NoteSays(py: Python, v: Json, fallback: string)
    ensures var note := Strip(TextOf(py, v)); IsNote(py, v, if note == "" then fallback else note, fallback)
  {
    TextShown(py, v);
    StripNoop("");
    hide IsFalsy, IsShown, TextOf, Strip;
  }

  lemma JustificationSays(py: Python, info: CriterionInfo, item: map<string, Json>)
    ensures IsJustification(py, item, ScoreOf(py, info, Some(item)))
  {
    StripNoop("");
    TextShown(py, Get(item, "justification", JStr("")));
    hide IsFalsy, IsShown, TextOf, Strip, ReadScore, ConfidenceOf, Feedback, Clamp, InRange;
  }

  lemma ConfidenceSays(py: Python, info: CriterionInfo, item: map<string, Json>)
    ensures IsConfidence(py, item, ScoreOf(py, info, Some(item)))
  {
    hide Strip, ReadScore, Justification, Feedback, Clamp, InRange, TooShort;
  }

  lemma FeedbackSays(py: Python, info: CriterionInfo, item: map<string, Json>)
    ensures IsFeedback(py, item, ScoreOf(py, info, Some(item)))
  {
    hide Strip, IsNote, ReadScore, Justification, TooShort, StatedConfidence, TextOf;
    if "feedback" in item {
      NoteSays(py, item["feedback"], FALLBACK_FEEDBACK);
    }
  }

  lemma AssembleStores(info: CriterionInfo, raw: Option<int>, justification: string, stated: Confidence, note: string)
    ensures var c := Assemble(info, raw, justification, stated, note);
            c.id == info.id && c.rawScore == raw && IsScoreStored(info, c)
  {
    hide TooShort;
  }

  lemma ScoreAssembles(py: Python, info: CriterionInfo, item: map<string, Json>)
    ensures ScoreOf(py, info, Some(item)) ==
            Assemble(info, ReadScore(py, Get(item, "score", JNull)), Justification(py, item),
                     StatedConfidence(py, item), Feedback(py, item))
  {
    hide Assemble, ReadScore, Get, Justification, StatedConfidence, Feedback;
  }

  lemma ScoreSays(py: Python, info: CriterionInfo, item: map<string, Json>)
    ensures var c := ScoreOf(py, info, Some(item));
            c.id == info.id && IsScoreRead(py, item, c.rawScore) && IsScoreStored(info, c)
  {
    hide *;
    ScoreRead(py, item);
    ScoreAssembles(py, info, item);
    AssembleStores(info, ReadScore(py, Get(item, "score", JNull)), Justification(py, item), StatedConfidence(py, item),
                   Feedback(py, item));
  }

  lemma EntrySays(py: Python, info: CriterionInfo, item: map<string, Json>)
    ensures SaysEntry(py, info, item, ScoreOf(py, info, Some(item)))
  {
    ScoreSays(py, info, item);
    JustificationSays(py, info, item);
    ConfidenceSays(py, info, item);
    FeedbackSays(py, info, item);
    hide ScoreOf, IsScoreRead, IsScoreStored, IsJustification, IsConfidence, IsFeedback;
  }

  lemma SameMention(py: Python, v: Json, id: string)
    ensures IsEntry(py, v, id) <==> Mentions(py, v, id)
  {
  }

  lemma LastMention(py: Python, items: seq<Json>, id: string, j: nat)
    requires MentionedLast(py, items, id, j)
    ensures items[j].JObj? && LastEntry(py, items, id) == Some(items[j].fields)
  {
    LastEntryAt(py, items, id);
    forall k | 0 <= k < |items|
      ensures IsEntry(py, items[k], id) <==> Mentions(py, items[k], id)
    {
      SameMention(py, items[k], id);
    }
    assert items[j].JObj?;
    hide IsEntry, Mentions, LastEntry;
    assert IsLastAt(py, items, id, j);
  }

  lemma NeverMentioned(py: Python, items: seq<Json>, id: string)
    requires forall j :: 0 <= j < |items| ==> !Mentions(py, items[j], id)
    ensures LastEntry(py, items, id).None?
  {
    forall j | 0 <= j < |items|
      ensures !IsEntry(py, items[j], id)
    {
      SameMention(py, items[j], id);
    }
    hide IsEntry, Mentions, LastEntry;
    LastEntryAt(py, items, id);
  }

  lemma CriterionSays(py: Python, items: seq<Json>, info: CriterionInfo)
    ensures SaysCriterion(py, items, info, ScoreOf(py, info, LastEntry(py, items, info.id)))
  {
    hide SaysEntry, LastEntry, MentionedLast, Mentions, Assemble;
    var c := ScoreOf(py, info, LastEntry(py, items, info.id));
    if forall j :: 0 <= j < |items| ==> !Mentions(py, items[j], info.id) {
      NeverMentioned(py, items, info.id);
    }
    hide ScoreOf;
    forall j: nat | MentionedLast(py, items, info.id, j)
      ensures j < |items| && items[j].JObj? && SaysEntry(py, info, items[j].fields, c)
    {
      assert j < |items| by { LastInside(py, items, info.id, j); }
      LastMention(py, items, info.id, j);
      EntrySays(py, info, items[j].fields);
    }
  }

  lemma LastInside(py: Python, items: seq<Json>, id: string, j: nat)
    requires MentionedLast(py, items, id, j)
    ensures j < |items|
  {
  }

  /** Main result: which responses parse, which error every other one gets, and what a parse says, field by field,
      of the fields of the response. */
  lemma ParseSays(py: Python, data: Json, criteria: seq<CriterionInfo>)
    ensures var r := Parse(py, data, criteria);
            && (r == Err(NotAnObject) <==> !data.JObj?)
            && (r == Err(NoScores) <==> data.JObj? && "criterion_scores" !in data.fields)
            && (r == Err(ScoresNotAnArray) <==>
                  data.JObj? && "criterion_scores" in data.fields && !data.fields["criterion_scores"].JArr?)
            && (r.Ok? <==>
                  data.JObj? && "criterion_scores" in data.fields && data.fields["criterion_scores"].JArr?)
            && (r.Ok? ==> Says(py, data.fields["criterion_scores"].items, data.fields, criteria, r.value))
  {
    hide SaysCriterion, IsNote, ScoreOf, LastEntry, Strip, TextOf;
    if Parse(py, data, criteria).Ok? {
      var items := data.fields["criterion_scores"].items;
      forall i | 0 <= i < |criteria|
        ensures SaysCriterion(py, items, criteria[i], Read(py, items, data.fields, criteria).scores[i])
      {
        CriterionSays(py, items, criteria[i]);
      }
      NoteSays(py, Get(data.fields, "summary_feedback", JStr("")), FALLBACK_SUMMARY);
      assert "summary_feedback" !in data.fields ==> Summary(py, data.fields) == FALLBACK_SUMMARY by { NoSummary(py); }
    }
  }

  lemma NoSummary(py: Python)
    ensures Strip(TextOf(py, JStr(""))) == ""
  {
    StripNoop("");
  }

  // ---------------------------------------------------------------------------
  // Rendering and parsing again
  // ---------------------------------------------------------------------------

  function RenderScore(c: CriterionScore): Json {
    var fields := map["criterion_id" := JStr(c.id),
                      "score" := if c.score.Some? then JInt(c.score.value) else JNull,
                      "justification" := JStr(c.justification),
                      "confidence" := JStr(Name(c.confidence))];
    JObj(if c.feedback == "" then fields else fields["feedback" := JStr(c.feedback)])
  }

  function RenderScores(scores: seq<CriterionScore>): seq<Json> {
    seq(|scores|, i requires 0 <= i < |scores| => RenderScore(scores[i]))
  }

  /** The response written back in the format it is asked for in. */
  function Render(r: Response): Json {
    JObj(map["criterion_scores" := JArr(RenderScores(r.scores)), "summary_feedback" := JStr(r.summary)])
  }

  predicate DistinctIds(criteria: seq<CriterionInfo>) {
    forall i, j :: 0 <= i < j < |criteria| ==> criteria[i].id != criteria[j].id
  }

  /** Score, justification, confidence and feedback, without the marks of how they were obtained. */
  function Settled(c: CriterionScore): CriterionScore {
    c.(clamped := false, needsReview := false, rawScore := c.score)
  }

  function SettledAll(scores: seq<CriterionScore>): seq<CriterionScore> {
    seq(|scores|, i requires 0 <= i < |scores| => Settled(scores[i]))
  }

  lemma SettledEntry(py: Python, info: CriterionInfo, item: map<string, Json>)
    requires GoodRange(info)
    ensures var c := ScoreOf(py, info, Some(item));
            ScoreOf(py, info, Some(RenderScore(c).fields)) == Settled(c)
  {
    hide Strip;
    var c := ScoreOf(py, info, Some(item));
    FallbackJustificationIsLong();
    FeedbackSettles(py, item);
    var again := RenderScore(c).fields;
    assert Justification(py, again) == c.justification;
    assert StatedConfidence(py, again) == c.confidence;
    assert Feedback(py, again) == c.feedback;
    assert ReadScore(py, Get(again, "score", JNull)) == c.score;
  }

  lemma FeedbackSettles(py: Python, item: map<string, Json>)
    ensures var note := Feedback(py, item); Strip(note) == note && ("feedback" in item <==> note != "")
  {
    hide Strip;
    StripNoop(FALLBACK_FEEDBACK);
    if "feedback" in item {
      StripTwice(TextOf(py, item["feedback"]));
    } else {
      StripNoop("");
    }
  }

  lemma SummarySettles(py: Python, fields: map<string, Json>)
    ensures var text := Summary(py, fields); text != "" && Strip(text) == text
  {
    hide Strip;
    StripNoop(FALLBACK_SUMMARY);
    StripTwice(TextOf(py, Get(fields, "summary_feedback", JStr(""))));
  }

  lemma RenderedEntry(py: Python, scores: seq<CriterionScore>, i: nat)
    requires i < |scores| && forall j, k :: 0 <= j < k < |scores| ==> scores[j].id != scores[k].id
    ensures LastEntry(py, RenderScores(scores), scores[i].id) == Some(RenderScore(scores[i]).fields)
  {
    hide LastEntry;
    var items := RenderScores(scores);
    forall j | 0 <= j < |items|
      ensures items[j] == RenderScore(scores[j]) && IsEntry(py, items[j], scores[j].id)
    {
    }
    forall j | i < j < |items|
      ensures !IsEntry(py, items[j], scores[i].id)
    {
      assert IsEntry(py, items[j], scores[j].id);
    }
    LastEntryAt(py, items, scores[i].id);
    assert IsLastAt(py, items, scores[i].id, i);
  }

  /** Parsing a rendered result with no missing criterion gives it back. */
  lemma ParseRendered(py: Python, items: seq<Json>, fields: map<string, Json>, criteria: seq<CriterionInfo>)
    requires DistinctIds(criteria) && forall c :: c in criteria ==> GoodRange(c)
    requires forall c :: c in criteria ==> LastEntry(py, items, c.id).Some?
    ensures var r := Read(py, items, fields, criteria);
            Parse(py, Render(r), criteria) == Ok(Response(SettledAll(r.scores), r.summary))
  {
    hide Strip, LastEntry, ScoreOf, RenderScore, RenderScores, Summary, IsEntry;
    var r := Read(py, items, fields, criteria);
    ScoreIds(py, items, fields, criteria);
    forall i | 0 <= i < |criteria|
      ensures ScoreOf(py, criteria[i], LastEntry(py, RenderScores(r.scores), criteria[i].id)) == Settled(r.scores[i])
    {
      RenderedEntry(py, r.scores, i);
      assert criteria[i] in criteria;
      SettledEntry(py, criteria[i], LastEntry(py, items, criteria[i].id).value);
    }
    SummaryRendered(py, fields, r);
    assert Read(py, RenderScores(r.scores), Render(r).fields, criteria).scores == SettledAll(r.scores);
  }

  lemma ScoreIds(py: Python, items: seq<Json>, fields: map<string, Json>, criteria: seq<CriterionInfo>)
    ensures var scores := Read(py, items, fields, criteria).scores;
            |scores| == |criteria| && forall i :: 0 <= i < |criteria| ==> scores[i].id == criteria[i].id
  {
    hide Strip, LastEntry;
  }

  lemma SummaryRendered(py: Python, fields: map<string, Json>, r: Response)
    requires r.summary == Summary(py, fields)
    ensures Summary(py, Render(r).fields) == r.summary
  {
    hide Strip;
    SummarySettles(py, fields);
  }

  // ---------------------------------------------------------------------------
  // Overall confidence (grading.py)
  // ---------------------------------------------------------------------------

  function Rank(c: Confidence): nat {
    match c
    case Low => 0
    case Medium => 1
    case High => 2
  }

  function OverallConfidence(scores: seq<CriterionScore>): Confidence {
    if scores == [] then Low
    else
      var levels := set c | c in scores :: c.confidence;
      if Low in levels then Low else if Medium in levels then Medium else High
  }

  /** The overall level is the least one present; nothing graded counts as low. */
  lemma OverallIsLeast(scores: seq<CriterionScore>)
    ensures forall c :: c in scores ==> Rank(OverallConfidence(scores)) <= Rank(c.confidence)
    ensures scores != [] ==> exists c :: c in scores && c.confidence == OverallConfidence(scores)
    ensures OverallConfidence(scores) == Low <==> scores == [] || exists c :: c in scores && c.confidence == Low
    ensures OverallConfidence(scores) == High <==> scores != [] && forall c :: c in scores ==> c.confidence == High
  {
    if scores != [] {
      var levels := set c | c in scores :: c.confidence;
      assert scores[0] in scores && scores[0].confidence in levels;
      assert scores[0].confidence == Low || scores[0].confidence == Medium || scores[0].confidence == High;
      assert OverallConfidence(scores) in levels;
    }
  }

  /** One clamped or missing criterion is enough to make the whole essay low-confidence. */
  lemma AnomalyMeansLow(py: Python, items: seq<Json>, fields: map<string, Json>, criteria: seq<CriterionInfo>, i: nat)
    requires i < |criteria| && GoodRange(criteria[i])
    ensures |Read(py, items, fields, criteria).scores| == |criteria|
    ensures var r := Read(py, items, fields, criteria);
            r.scores[i].clamped || r.scores[i].score.None? ==> OverallConfidence(r.scores) == Low
  {
    ParseCoversRubric(py, items, fields, criteria, i);
    hide Read, Strip, LastEntry;
    var r := Read(py, items, fields, criteria);
    OverallIsLeast(r.scores);
    assert r.scores[i] in r.scores;
  }
}
