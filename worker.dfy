/**
 * The edge function's pure logic: the mode dispatch on the request body, the
 * normaliser that turns the model's reply into idea records, the liked-idea
 * block of the continuation prompt, the audience line of the initial prompt,
 * and the name and data-centre extraction used for the mailing-list signup.
 */
module Worker {
  import opened Wrappers
  import opened Text

  /** A JSON value as `JSON.parse` produces it. */
  datatype Json =
    | JNull
    | JBool(b: bool)
    | JNumber(n: real)
    | JString(s: string)
    | JArray(elems: seq<Json>)
    | JObject(fields: map<string, Json>)

  /** What `JSON.parse` did with the reply text; the parser itself is not modelled. */
  datatype ParseOutcome = SyntaxError | Parsed(value: Json)

  /** An idea as the edge function returns it. On the JSON path the fields are
      whatever the model put there (or the element itself for a missing title). */
  datatype WorkerIdea = WorkerIdea(id: Json, title: Json, description: Json, category: Json, isBookmarked: bool)

  /** JavaScript truthiness of a JSON value. */
  predicate Truthy(v: Json) {
    match v
    case JNull => false
    case JBool(b) => b
    case JNumber(n) => n != 0.0
    case JString(s) => s != ""
    case JArray(_) => true
    case JObject(_) => true
  }

  /** `v[key]` on a value that is not `null`, for keys no built-in prototype
      defines; `None` is `undefined`. */
  function Property(v: Json, key: string): (r: Option<Json>)
    ensures r.Some? <==> v.JObject? && key in v.fields
  {
    if v.JObject? && key in v.fields then Some(v.fields[key]) else None
  }

  /** `a || b` where `a` may be `undefined`. */
  function Or(a: Option<Json>, b: Json): Json {
    if a.Some? && Truthy(a.value) then a.value else b
  }

  // ---------------------------------------------------------------------------
  // Mode dispatch (index.js lines 31 and 35)

  /** What the handler decides from the request body before building a prompt. */
  datatype Plan = Plan(continuation: bool, captureLead: bool)

  /** `x.length > 0` for the values whose `length` the model knows: arrays and strings. */
  predicate LengthPositive(v: Json) {
    match v
    case JArray(a) => |a| > 0
    case JString(s) => |s| > 0
    case _ => false
  }

  /** The body carries a non-empty `selectedIdeas` array or string. */
  predicate HasSelectedIdeas(body: Json) {
    body.JObject? && "selectedIdeas" in body.fields &&
    ((body.fields["selectedIdeas"].JArray? && body.fields["selectedIdeas"].elems != []) ||
     (body.fields["selectedIdeas"].JString? && body.fields["selectedIdeas"].s != ""))
  }

  /** The request body's field `key` is a non-empty string. */
  predicate NonEmptyStringField(body: Json, key: string) {
    body.JObject? && key in body.fields &&
    body.fields[key].JString? && body.fields[key].s != ""
  }

  /** The two gates of the handler. A `null` body makes the first property
      access throw, which the handler turns into a 500 (`None`). */
  function Dispatch(body: Json): (p: Option<Plan>)
    ensures p.None? <==> body.JNull?
    ensures p.Some? ==> (p.value.continuation <==> HasSelectedIdeas(body))
    ensures p.Some? && p.value.captureLead ==> !p.value.continuation
  {
    if body.JNull? then None
    else
      var selected := Property(body, "selectedIdeas");
      var isGenerateMore := selected.Some? && Truthy(selected.value) && LengthPositive(selected.value);
      var name := Property(body, "userName");
      var email := Property(body, "userEmail");
      var lead := !isGenerateMore && name.Some? && Truthy(name.value) && email.Some? && Truthy(email.value);
      Some(Plan(isGenerateMore, lead))
  }

  /** For the string-valued name and email the client sends, lead capture
      happens exactly on an initial request with both non-empty. */
  lemma LeadCaptureForStringFields(body: Json)
    requires body.JObject?
    requires forall key :: key in {"userName", "userEmail"} && key in body.fields ==> body.fields[key].JString?
    ensures Dispatch(body).Some?
    ensures Dispatch(body).value.captureLead <==>
              !HasSelectedIdeas(body) &&
              NonEmptyStringField(body, "userName") && NonEmptyStringField(body, "userEmail")
  {
    assert "userName" in {"userName", "userEmail"};
    assert "userEmail" in {"userName", "userEmail"};
  }

  // ---------------------------------------------------------------------------
  // Prompt fragments (index.js lines 181 and 210)

  /** The liked titles one per line, as embedded in the continuation prompt. */
  function LovedIdeasBlock(selected: seq<string>): string {
    Join(selected, "\n")
  }

  /** Titles without line breaks can be read back from the block line by line. */
  lemma LovedIdeasBlockRoundTrip(selected: seq<string>)
    requires selected != []
    requires forall t :: t in selected ==> '\n' !in t
    ensures Split(LovedIdeasBlock(selected), '\n') == selected
  {
    SplitJoin(selected, '\n');
  }

  /** The optional audience line of the initial prompt: present exactly when
      `additionalContext` is a non-empty string, and then ending with it. */
  function AudienceContextLine(additionalContext: Option<string>): (line: string)
    ensures line == "" <==> additionalContext.None? || additionalContext.value == ""
    ensures line != "" ==> line == AudienceLabel + additionalContext.value
  {
    if additionalContext.Some? && additionalContext.value != "" then AudienceLabel + additionalContext.value
    else ""
  }

  const AudienceLabel := "- Audience Context: "

  // ---------------------------------------------------------------------------
  // Normaliser, JSON path (index.js lines 248-256)

  /** `idea_${now}_${index}`. */
  function SynthesizedId(now: nat, index: nat): string {
    "idea_" + NatToString(now) + "_" + NatToString(index)
  }

  /** Ids synthesised in one call differ when their positions differ. */
  lemma SynthesizedIdInjective(now: nat, i: nat, j: nat)
    requires SynthesizedId(now, i) == SynthesizedId(now, j)
    ensures i == j
  {
    var prefix := "idea_" + NatToString(now) + "_";
    assert SynthesizedId(now, i) == prefix + NatToString(i);
    assert SynthesizedId(now, j) == prefix + NatToString(j);
    assert NatToString(i) == (prefix + NatToString(i))[|prefix|..];
    assert NatToString(j) == (prefix + NatToString(j))[|prefix|..];
    NatToStringInjective(i, j);
  }

  /** The map callback for one array element; `null` elements never reach it. */
  function NormalizeElement(e: Json, index: nat, now: nat): WorkerIdea
    requires !e.JNull?
  {
    WorkerIdea(
      Or(Property(e, "id"), JString(SynthesizedId(now, index))),
      Or(Property(e, "title"), e),
      Or(Property(e, "description"), JString("")),
      Or(Property(e, "category"), JString("General")),
      false)
  }

  /** The JSON path is taken when the reply parsed to an array none of whose
      elements is `null` (a `null` element throws inside the `try`). */
  predicate JsonPathApplies(parsed: ParseOutcome) {
    parsed.Parsed? && parsed.value.JArray? &&
    forall k :: 0 <= k < |parsed.value.elems| ==> !parsed.value.elems[k].JNull?
  }

  /** `parsed.map(...)` over an array without `null` elements. */
  function MapJsonIdeas(elems: seq<Json>, now: nat): (ideas: seq<WorkerIdea>)
    requires forall k :: 0 <= k < |elems| ==> !elems[k].JNull?
    ensures |ideas| == |elems|
  {
    seq(|elems|, k requires 0 <= k < |elems| => NormalizeElement(elems[k], k, now))
  }

  /** Field by field, what the JSON path makes of element `k`. */
  lemma JsonIdeaFields(elems: seq<Json>, now: nat, k: nat)
    requires forall j :: 0 <= j < |elems| ==> !elems[j].JNull?
    requires k < |elems|
    ensures var idea := MapJsonIdeas(elems, now)[k]; var e := elems[k];
      && !idea.isBookmarked
      && (if e.JObject? && "id" in e.fields && Truthy(e.fields["id"])
          then idea.id == e.fields["id"] else idea.id == JString(SynthesizedId(now, k)))
      && (if e.JObject? && "title" in e.fields && Truthy(e.fields["title"])
          then idea.title == e.fields["title"] else idea.title == e)
      && (if e.JObject? && "description" in e.fields && Truthy(e.fields["description"])
          then idea.description == e.fields["description"] else idea.description == JString(""))
      && (if e.JObject? && "category" in e.fields && Truthy(e.fields["category"])
          then idea.category == e.fields["category"] else idea.category == JString("General"))
  {
  }

  /** Ids the model supplied are kept as they are, so two elements carrying the
      same truthy id give two ideas with that same id. */
  lemma ModelIdsKept(elems: seq<Json>, now: nat, i: nat, j: nat)
    requires forall k :: 0 <= k < |elems| ==> !elems[k].JNull?
    requires i < j < |elems|
    requires elems[i].JObject? && elems[j].JObject?
    requires "id" in elems[i].fields && "id" in elems[j].fields
    requires elems[i].fields["id"] == elems[j].fields["id"] && Truthy(elems[i].fields["id"])
    ensures MapJsonIdeas(elems, now)[i].id == MapJsonIdeas(elems, now)[j].id == elems[i].fields["id"]
  {
  }

  /** On the JSON path every idea is unbookmarked and, where two ids were
      both synthesised, they differ. */
  lemma JsonIdeasSynthesizedIdsDistinct(elems: seq<Json>, now: nat, i: nat, j: nat)
    requires forall k :: 0 <= k < |elems| ==> !elems[k].JNull?
    requires i < j < |elems|
    requires MapJsonIdeas(elems, now)[i].id == JString(SynthesizedId(now, i))
    requires MapJsonIdeas(elems, now)[j].id == JString(SynthesizedId(now, j))
    ensures MapJsonIdeas(elems, now)[i].id != MapJsonIdeas(elems, now)[j].id
  {
    if SynthesizedId(now, i) == SynthesizedId(now, j) {
      SynthesizedIdInjective(now, i, j);
    }
  }

  // ---------------------------------------------------------------------------
  // Normaliser, line-based fallback (index.js lines 263-284)

  /** At most this many ideas come out of the fallback. */
  const MaxFallbackIdeas := 15

  /** The characters of the bullet class at index.js line 271, as the file
      spells it: `-`, `*` and the three characters `â`, `€`, `¢`. */
  predicate IsBullet(c: char) {
    c == '-' || c == '*' || c == '\U{00E2}' || c == '\U{20AC}' || c == '\U{00A2}'
  }

  /** The first `replace` of line 271: a leading run of ASCII digits
      followed by `.` is removed together with the white space after it. */
  function StripEnumeration(s: string): (r: string)
    ensures |r| <= |s| && r == s[|s| - |r|..]
    ensures s != [] && !IsSpace(s[0]) ==> r == [] || !IsSpace(r[0])
    ensures var d := LeadingDigits(s);
      if 0 < d < |s| && s[d] == '.' then
        |r| < |s| - d && AllSpace(s[d + 1..|s| - |r|]) && (r == [] || !IsSpace(r[0]))
      else r == s
  {
    var d := LeadingDigits(s);
    if 0 < d < |s| && s[d] == '.' then
      var rest := s[d + 1..];
      TrimStartSuffix(rest);
      var r := TrimStart(rest);
      assert rest[..|rest| - |r|] == s[d + 1..|s| - |r|];
      r
    else s
  }

  /** The second `replace` of line 271: one leading bullet character is
      removed together with the white space after it. */
  function StripBullet(s: string): (r: string)
    ensures |r| <= |s| && r == s[|s| - |r|..]
    ensures s != [] && !IsSpace(s[0]) ==> r == [] || !IsSpace(r[0])
    ensures if s != [] && IsBullet(s[0]) then
        |r| < |s| && AllSpace(s[1..|s| - |r|]) && (r == [] || !IsSpace(r[0]))
      else r == s
  {
    if s != [] && IsBullet(s[0]) then
      var rest := s[1..];
      TrimStartSuffix(rest);
      var r := TrimStart(rest);
      assert rest[..|rest| - |r|] == s[1..|s| - |r|];
      r
    else s
  }

  /** The idea a kept line turns into. */
  function FallbackIdea(title: string, index: nat, now: nat): WorkerIdea {
    WorkerIdea(JString(SynthesizedId(now, index)), JString(title), JString(""), JString("General"), false)
  }

  /** The loop body's decision for line `index`, without the cap. */
  function LineIdea(line: string, index: nat, now: nat): Option<WorkerIdea> {
    var t := Trim(line);
    if t != "" && t[0] != '{' && t[0] != '[' then
      var cleanTitle := Trim(StripBullet(StripEnumeration(t)));
      if cleanTitle != "" then Some(FallbackIdea(cleanTitle, index, now)) else None
    else None
  }

  /** `content.split('\n').filter(line => line.trim())`. */
  function NonBlank(lines: seq<string>): (kept: seq<string>)
    ensures |kept| <= |lines|
    ensures forall k :: 0 <= k < |kept| ==> Trim(kept[k]) != ""
    ensures forall l :: l in kept ==> l in lines
    ensures (forall k :: 0 <= k < |lines| ==> Trim(lines[k]) != "") ==> kept == lines
  {
    if lines == [] then []
    else if Trim(lines[0]) != "" then [lines[0]] + NonBlank(lines[1..])
    else NonBlank(lines[1..])
  }

  /** Every non-blank line is kept. */
  lemma {:induction false} NonBlankComplete(lines: seq<string>, l: string)
    requires l in lines && Trim(l) != ""
    ensures l in NonBlank(lines)
  {
    if lines[0] != l {
      assert l in lines[1..];
      NonBlankComplete(lines[1..], l);
    }
  }

  /** The filter keeps line order: filtering a concatenation concatenates the filters. */
  lemma {:induction false} NonBlankAppend(xs: seq<string>, ys: seq<string>)
    ensures NonBlank(xs + ys) == NonBlank(xs) + NonBlank(ys)
  {
    if xs == [] {
      assert xs + ys == ys;
    } else {
      assert (xs + ys)[0] == xs[0];
      assert (xs + ys)[1..] == xs[1..] + ys;
      NonBlankAppend(xs[1..], ys);
    }
  }

  function NonBlankLines(content: string): seq<string> {
    NonBlank(Split(content, '\n'))
  }

  /** The ideas each line contributes, line by line. */
  function Decisions(lines: seq<string>, now: nat): (d: seq<seq<WorkerIdea>>)
    ensures |d| == |lines|
  {
    seq(|lines|, i requires 0 <= i < |lines| => Produced(lines[i], i, now))
  }

  /** The ideas one line contributes: none or one. */
  function Produced(line: string, index: nat, now: nat): (r: seq<WorkerIdea>)
    ensures |r| <= 1
  {
    match LineIdea(line, index, now)
    case Some(idea) => [idea]
    case None => []
  }

  /** Concatenation of the blocks, in order. */
  function Flatten<T>(blocks: seq<seq<T>>): seq<T> {
    if blocks == [] then [] else Flatten(blocks[..|blocks| - 1]) + blocks[|blocks| - 1]
  }

  /** Flattening a prefix of the blocks gives a prefix of the flattening. */
  lemma {:induction false} FlattenPrefix<T>(blocks: seq<seq<T>>, i: nat)
    requires i <= |blocks|
    ensures var c := Flatten(blocks[..i]); var all := Flatten(blocks);
      |c| <= |all| && c == all[..|c|]
  {
    if i < |blocks| {
      var k := |blocks| - 1;
      assert blocks[..k][..i] == blocks[..i];
      FlattenPrefix(blocks[..k], i);
    } else {
      assert blocks[..i] == blocks;
    }
  }

  /** Every element of a flattening sits in one of the blocks. */
  lemma {:induction false} FlattenMember<T>(blocks: seq<seq<T>>, x: T)
    requires x in Flatten(blocks)
    ensures exists i :: 0 <= i < |blocks| && x in blocks[i]
  {
    var k := |blocks| - 1;
    if x in Flatten(blocks[..k]) {
      FlattenMember(blocks[..k], x);
      var i :| 0 <= i < k && x in blocks[..k][i];
      assert blocks[..k][i] == blocks[i];
    } else {
      assert x in blocks[k];
    }
  }

  /** The ideas the lines produce, in order, ignoring the cap. */
  function Candidates(lines: seq<string>, now: nat): seq<WorkerIdea> {
    Flatten(Decisions(lines, now))
  }

  /** The candidates of the first `i + 1` lines extend those of the first `i`
      by what line `i` produces. */
  lemma CandidatesStep(lines: seq<string>, i: nat, now: nat)
    requires i < |lines|
    ensures Candidates(lines[..i + 1], now) == Candidates(lines[..i], now) + Produced(lines[i], i, now)
  {
    var d := Decisions(lines[..i + 1], now);
    assert d[..i] == Decisions(lines[..i], now);
  }

  /** The candidates of a prefix of the lines are a prefix of the candidates. */
  lemma CandidatesPrefix(lines: seq<string>, i: nat, now: nat)
    requires i <= |lines|
    ensures var c := Candidates(lines[..i], now); var all := Candidates(lines, now);
      |c| <= |all| && c == all[..|c|]
  {
    assert Decisions(lines[..i], now) == Decisions(lines, now)[..i];
    FlattenPrefix(Decisions(lines, now), i);
  }

  /** The fallback's result: the first fifteen candidates of the non-blank lines. */
  function FallbackIdeas(content: string, now: nat): (ideas: seq<WorkerIdea>)
    ensures |ideas| <= MaxFallbackIdeas
  {
    Capped(Candidates(NonBlankLines(content), now))
  }

  /** The first `MaxFallbackIdeas` elements. */
  function Capped(all: seq<WorkerIdea>): seq<WorkerIdea> {
    if |all| <= MaxFallbackIdeas then all else all[..MaxFallbackIdeas]
  }

  /** The loop stops either after the last line or with a full list; either
      way it holds the capped candidates. */
  lemma LoopExitCapped(lines: seq<string>, i: nat, ideas: seq<WorkerIdea>, now: nat)
    requires i <= |lines|
    requires ideas == Candidates(lines[..i], now) && |ideas| <= MaxFallbackIdeas
    requires i == |lines| || |ideas| == MaxFallbackIdeas
    ensures ideas == Capped(Candidates(lines, now))
  {
    CandidatesPrefix(lines, i, now);
    if i == |lines| {
      assert lines[..i] == lines;
    }
  }

  /** What the loop body computes for one line. */
  lemma ProducedUnfold(line: string, i: nat, now: nat)
    ensures Produced(line, i, now) ==
      var t := Trim(line);
      if t != "" && t[0] != '{' && t[0] != '[' then
        var cleanTitle := Trim(StripBullet(StripEnumeration(t)));
        if cleanTitle != "" then [FallbackIdea(cleanTitle, i, now)] else []
      else []
  {
  }

  /** The fallback loop of `parseContentIdeas`. */
  method ExtractFromText(content: string, now: nat) returns (ideas: seq<WorkerIdea>)
    ensures ideas == FallbackIdeas(content, now)
  {
    var lines := NonBlankLines(content);
    ideas := [];
    var i := 0;
    assert lines[..0] == [];
    while i < |lines| && |ideas| < MaxFallbackIdeas
      invariant 0 <= i <= |lines|
      invariant ideas == Candidates(lines[..i], now)
      invariant |ideas| <= MaxFallbackIdeas
    {
      CandidatesStep(lines, i, now);
      ProducedUnfold(lines[i], i, now);
      var line := Trim(lines[i]);
      if line != "" && line[0] != '{' && line[0] != '[' {
        var cleanTitle := Trim(StripBullet(StripEnumeration(line)));
        if cleanTitle != "" {
          ideas := ideas + [FallbackIdea(cleanTitle, i, now)];
        }
      }
      i := i + 1;
    }
    LoopExitCapped(lines, i, ideas, now);
  }

  /** `parseContentIdeas(content)`, with the outcome of `JSON.parse(content)`
      and the clock reading passed in. */
  method ParseContentIdeas(content: string, parsed: ParseOutcome, now: nat) returns (ideas: seq<WorkerIdea>)
    ensures JsonPathApplies(parsed) ==> ideas == MapJsonIdeas(parsed.value.elems, now)
    ensures !JsonPathApplies(parsed) ==> ideas == FallbackIdeas(content, now)
    ensures AllSpace(content) && !JsonPathApplies(parsed) ==> ideas == []
  {
    if JsonPathApplies(parsed) {
      return MapJsonIdeas(parsed.value.elems, now);
    }
    ideas := ExtractFromText(content, now);
    if AllSpace(content) {
      BlankContentYieldsNothing(content, now);
    }
  }

  // ---------------------------------------------------------------------------
  // Properties of the fallback

  /** A reply made only of white space gives no ideas. */
  lemma BlankContentYieldsNothing(content: string, now: nat)
    requires AllSpace(content)
    ensures FallbackIdeas(content, now) == []
  {
    var parts := Split(content, '\n');
    forall p | p in parts ensures AllSpace(p) {
      forall k | 0 <= k < |p| ensures IsSpace(p[k]) {
        SplitPartsFrom(content, '\n', p, k);
      }
    }
    BlankLinesDropped(parts);
  }

  lemma {:induction false} BlankLinesDropped(lines: seq<string>)
    requires forall l :: l in lines ==> AllSpace(l)
    ensures NonBlank(lines) == []
  {
    if lines != [] {
      assert lines[0] in lines;
      BlankLinesDropped(lines[1..]);
    }
  }

  /** Once the enumeration and bullet are gone, the final `trim()` changes nothing. */
  lemma CleanTitleAlreadyTrimmed(t: string)
    requires t != [] && IsTrimmed(t)
    ensures Trim(StripBullet(StripEnumeration(t))) == StripBullet(StripEnumeration(t))
  {
    var u := StripBullet(StripEnumeration(t));
    if u != [] {
      assert u[|u| - 1] == t[|t| - 1];
    }
  }

  /** Idea `x` is what line number `i` produces in the fallback: the trimmed
      line is non-empty and does not start with `{` or `[`, and the title is
      the trimmed line without its enumeration and bullet, non-empty. */
  predicate FromLine(line: string, i: nat, now: nat, x: WorkerIdea) {
    var t := Trim(line);
    && t != "" && t[0] != '{' && t[0] != '['
    && StripBullet(StripEnumeration(t)) != ""
    && x == FallbackIdea(StripBullet(StripEnumeration(t)), i, now)
  }

  /** What one line produces is described by `FromLine`. */
  lemma ProducedFromLine(line: string, i: nat, now: nat, x: WorkerIdea)
    requires x in Produced(line, i, now)
    ensures FromLine(line, i, now, x)
  {
    var t := Trim(line);
    CleanTitleAlreadyTrimmed(t);
  }

  /** A line that `FromLine` describes produces exactly that idea. */
  lemma LineProducesFromLine(line: string, i: nat, now: nat, x: WorkerIdea)
    requires FromLine(line, i, now, x)
    ensures Produced(line, i, now) == [x]
  {
    CleanTitleAlreadyTrimmed(Trim(line));
  }

  /** A line produces an idea exactly as `FromLine` describes it. */
  lemma ProducedIffFromLine(line: string, i: nat, now: nat, x: WorkerIdea)
    ensures x in Produced(line, i, now) <==> FromLine(line, i, now, x)
  {
    if x in Produced(line, i, now) {
      ProducedFromLine(line, i, now, x);
    }
    if FromLine(line, i, now, x) {
      LineProducesFromLine(line, i, now, x);
    }
  }

  /** The element after a prefix `prev` of `all` that `prev + [x]` extends is `x`. */
  lemma PrefixThenAt<T>(prev: seq<T>, x: T, all: seq<T>)
    requires |prev + [x]| <= |all| && prev + [x] == all[..|prev + [x]|]
    ensures all[|prev|] == x
  {
    assert all[..|prev| + 1][|prev|] == all[|prev|];
  }

  /** The first `MaxFallbackIdeas` elements survive the cap. */
  lemma CappedKeeps(all: seq<WorkerIdea>, k: nat)
    requires k < |all| && k < MaxFallbackIdeas
    ensures all[k] in Capped(all)
  {
    if |all| > MaxFallbackIdeas {
      assert Capped(all)[k] == all[k];
    }
  }

  /** Over any list of lines: the idea of line `i`, reached while fewer than
      fifteen ideas have been collected, is in the capped list. */
  lemma ProducedCollected(lines: seq<string>, now: nat, i: nat, x: WorkerIdea)
    requires i < |lines| && Produced(lines[i], i, now) == [x]
    requires |Candidates(lines[..i], now)| < MaxFallbackIdeas
    ensures x in Capped(Candidates(lines, now))
  {
    var prev := Candidates(lines[..i], now);
    CandidatesStep(lines, i, now);
    CandidatesPrefix(lines, i + 1, now);
    var all := Candidates(lines, now);
    PrefixThenAt(prev, x, all);
    CappedKeeps(all, |prev|);
  }

  /** A qualifying non-blank line reached while fewer than fifteen ideas have
      been collected contributes its idea to the result. */
  lemma QualifyingLineKept(content: string, now: nat, i: nat, x: WorkerIdea)
    requires i < |NonBlankLines(content)|
    requires FromLine(NonBlankLines(content)[i], i, now, x)
    requires |Candidates(NonBlankLines(content)[..i], now)| < MaxFallbackIdeas
    ensures x in FallbackIdeas(content, now)
  {
    LineProducesFromLine(NonBlankLines(content)[i], i, now, x);
    ProducedCollected(NonBlankLines(content), now, i, x);
  }

  /** Where each candidate comes from. */
  lemma CandidateOrigin(lines: seq<string>, now: nat, x: WorkerIdea)
    requires x in Candidates(lines, now)
    ensures exists i :: 0 <= i < |lines| && FromLine(lines[i], i, now, x)
  {
    FlattenMember(Decisions(lines, now), x);
    var i :| 0 <= i < |lines| && x in Decisions(lines, now)[i];
    ProducedFromLine(lines[i], i, now, x);
  }

  /** Every idea the fallback returns has a non-empty title, an empty
      description, the category `General`, no bookmark, and comes from a
      non-blank line as `FromLine` says. */
  lemma FallbackIdeaShape(content: string, now: nat, x: WorkerIdea)
    requires x in FallbackIdeas(content, now)
    ensures x.title.JString? && x.title.s != ""
    ensures x.description == JString("") && x.category == JString("General") && !x.isBookmarked
    ensures exists i :: 0 <= i < |NonBlankLines(content)| && FromLine(NonBlankLines(content)[i], i, now, x)
  {
    var all := Candidates(NonBlankLines(content), now);
    assert x in all;
    CandidateOrigin(NonBlankLines(content), now, x);
  }

  /** Appending an idea whose id is new keeps the ids pairwise distinct. */
  lemma DistinctIdsExtend(prev: seq<WorkerIdea>, last: WorkerIdea)
    requires forall a, b :: 0 <= a < b < |prev| ==> prev[a].id != prev[b].id
    requires forall a :: 0 <= a < |prev| ==> prev[a].id != last.id
    ensures var c := prev + [last]; forall a, b :: 0 <= a < b < |c| ==> c[a].id != c[b].id
  {
  }

  /** A produced idea's id records the position of its line. */
  lemma ProducedId(line: string, i: nat, now: nat, x: WorkerIdea)
    requires x in Produced(line, i, now)
    ensures x.id == JString(SynthesizedId(now, i))
  {
  }

  /** Each candidate id is synthesised from a line position below `|lines|`. */
  lemma CandidateIdBelow(lines: seq<string>, now: nat, x: WorkerIdea)
    requires x in Candidates(lines, now)
    ensures exists i :: 0 <= i < |lines| && x.id == JString(SynthesizedId(now, i))
  {
    FlattenMember(Decisions(lines, now), x);
    var i :| 0 <= i < |lines| && x in Decisions(lines, now)[i];
    ProducedId(lines[i], i, now, x);
  }

  /** The ids of the candidates are pairwise distinct. */
  lemma {:induction false} CandidateIdsDistinct(lines: seq<string>, now: nat)
    ensures var c := Candidates(lines, now);
      forall a, b :: 0 <= a < b < |c| ==> c[a].id != c[b].id
  {
    if lines != [] {
      var k := |lines| - 1;
      assert lines[..k + 1] == lines;
      CandidatesStep(lines, k, now);
      var prev := Candidates(lines[..k], now);
      var c := Candidates(lines, now);
      CandidateIdsDistinct(lines[..k], now);
      if |c| > |prev| {
        var last := c[|prev|];
        assert last in Produced(lines[k], k, now);
        ProducedId(lines[k], k, now, last);
        forall a | 0 <= a < |prev| ensures prev[a].id != last.id {
          CandidateIdBelow(lines[..k], now, prev[a]);
          var i :| 0 <= i < k && prev[a].id == JString(SynthesizedId(now, i));
          if SynthesizedId(now, i) == SynthesizedId(now, k) {
            SynthesizedIdInjective(now, i, k);
          }
        }
        assert c == prev + [last];
        DistinctIdsExtend(prev, last);
      }
    }
  }

  /** The fallback's ids are pairwise distinct within one call. */
  lemma FallbackIdsDistinct(content: string, now: nat)
    ensures var ideas := FallbackIdeas(content, now);
      forall a, b :: 0 <= a < b < |ideas| ==> ideas[a].id != ideas[b].id
  {
    CandidateIdsDistinct(NonBlankLines(content), now);
  }

  // ---------------------------------------------------------------------------
  // Mailing-list helpers (index.js lines 296-303)

  const DefaultDataCentre := "us10"

  /** `apiKey.split('-')[1] || 'us10'`: the text between the first and the
      second `-`, or `us10` when the key has no `-` or that text is empty. */
  function DataCentre(apiKey: string): (dc: string)
    ensures var i := IndexOf(apiKey, '-');
      dc == if i < |apiKey| && Before(apiKey[i + 1..], '-') != "" then Before(apiKey[i + 1..], '-')
            else DefaultDataCentre
    ensures dc != "" && '-' !in dc
  {
    var parts := Split(apiKey, '-');
    var rest := if '-' in apiKey then apiKey[IndexOf(apiKey, '-') + 1..] else [];
    SplitHead(apiKey, '-');
    SplitHead(rest, '-');
    if |parts| > 1 && parts[1] != "" then parts[1] else DefaultDataCentre
  }

  /** First and last name for the mailing-list merge fields. */
  datatype NameParts = NameParts(firstName: string, lastName: string)

  /** `name.trim().split(' ')`: the first word, and the rest re-joined by spaces. */
  function SplitName(name: string): (r: NameParts)
    ensures var t := Trim(name);
      && ' ' !in r.firstName
      && (' ' in t ==> r.firstName + " " + r.lastName == t)
      && (' ' !in t ==> r.firstName == t && r.lastName == "")
  {
    var t := Trim(name);
    var parts := Split(t, ' ');
    var firstName := parts[0];
    var lastName := Join(parts[1..], " ");
    JoinSplit(t, ' ');
    SplitHead(t, ' ');
    assert parts[0] in parts;
    NameParts(firstName, lastName)
  }
}
