/**
 * The text body of `exportToTxt`: one numbered entry per idea, each followed by
 * an optional indented category line and an optional indented description
 * line, entries separated by a blank line. A reader for that layout shows
 * that, for fields without line breaks, title, category and description of
 * every idea can be recovered in order.
 */
module IdeaExport {
  import opened Wrappers
  import opened Text
  import opened Store

  const CategoryPrefix := "   Category: "
  const DescriptionPrefix := "   Description: "

  /** Entry number `n` of the export (`${index + 1}. ${idea.title}` and the
      optional lines). */
  function EntryText(n: nat, idea: ContentIdea): string {
    var ideaText := NatToString(n) + ". " + idea.title;
    var withCategory :=
      if Present(idea.category) then ideaText + "\n" + CategoryPrefix + idea.category.value else ideaText;
    if Present(idea.description) then withCategory + "\n" + DescriptionPrefix + idea.description.value
    else withCategory
  }

  /** The entries of `xs`, numbered from `start`. */
  function EntryTexts(xs: seq<ContentIdea>, start: nat): (r: seq<string>)
    ensures |r| == |xs|
  {
    if xs == [] then [] else [EntryText(start, xs[0])] + EntryTexts(xs[1..], start + 1)
  }

  /** The exported document: entries numbered from 1, joined by a blank line;
      empty exactly when there is no idea. */
  function ExportText(xs: seq<ContentIdea>): (text: string)
    ensures text == "" <==> xs == []
  {
    var texts := EntryTexts(xs, 1);
    assert xs != [] ==> |texts[0]| >= |". "|;
    Join(texts, "\n\n")
  }

  // ---------------------------------------------------------------------------
  // Reading an export back

  /** What the export shows of one idea; an absent or empty field reads as "". */
  datatype ExportedIdea = ExportedIdea(title: string, category: string, description: string)

  function Shown(s: Option<string>): string {
    if Present(s) then s.value else ""
  }

  function Summary(x: ContentIdea): ExportedIdea {
    ExportedIdea(x.title, Shown(x.category), Shown(x.description))
  }

  function Summaries(xs: seq<ContentIdea>): (r: seq<ExportedIdea>)
    ensures |r| == |xs|
  {
    if xs == [] then [] else [Summary(xs[0])] + Summaries(xs[1..])
  }

  /** The title of a heading line `<digits>. <title>`. */
  function ReadTitle(line: string): string {
    var rest := line[LeadingDigits(line)..];
    if StartsWith(rest, ". ") then rest[2..] else rest
  }

  /** One entry from its lines: heading, then optional category and description lines. */
  function ReadEntry(lines: seq<string>): ExportedIdea {
    if lines == [] then ExportedIdea("", "", "")
    else
      var rest := lines[1..];
      var hasCategory := rest != [] && StartsWith(rest[0], CategoryPrefix);
      var category := if hasCategory then rest[0][|CategoryPrefix|..] else "";
      var rest' := if hasCategory then rest[1..] else rest;
      var description :=
        if rest' != [] && StartsWith(rest'[0], DescriptionPrefix) then rest'[0][|DescriptionPrefix|..] else "";
      ExportedIdea(ReadTitle(lines[0]), category, description)
  }

  function ReadEntries(groups: seq<seq<string>>): (r: seq<ExportedIdea>)
    ensures |r| == |groups|
  {
    if groups == [] then [] else [ReadEntry(groups[0])] + ReadEntries(groups[1..])
  }

  /** Split the document into lines, the lines into blank-line-separated
      groups, and read each group as an entry. */
  function ReadExport(text: string): seq<ExportedIdea> {
    if text == "" then [] else ReadEntries(Split(Split(text, '\n'), ""))
  }

  // ---------------------------------------------------------------------------
  // Round trip

  /** None of the exported fields holds a line break. */
  predicate SingleLine(x: ContentIdea) {
    && '\n' !in x.title
    && (x.category.Some? ==> '\n' !in x.category.value)
    && (x.description.Some? ==> '\n' !in x.description.value)
  }

  /** The lines of entry `n`. */
  function EntryLines(n: nat, x: ContentIdea): seq<string> {
    [NatToString(n) + ". " + x.title] +
    (if Present(x.category) then [CategoryPrefix + x.category.value] else []) +
    (if Present(x.description) then [DescriptionPrefix + x.description.value] else [])
  }

  /** The line groups of the entries of `xs`, numbered from `start`. */
  function LineGroups(xs: seq<ContentIdea>, start: nat): (r: seq<seq<string>>)
    ensures |r| == |xs|
  {
    if xs == [] then [] else [EntryLines(start, xs[0])] + LineGroups(xs[1..], start + 1)
  }

  /** An entry is its lines joined by line breaks; no line is empty or holds a break. */
  lemma EntryAsLines(n: nat, x: ContentIdea)
    requires SingleLine(x)
    ensures EntryText(n, x) == Join(EntryLines(n, x), "\n")
    ensures forall l :: l in EntryLines(n, x) ==> l != "" && '\n' !in l
  {
    var head := NatToString(n) + ". " + x.title;
    assert '\n' !in head by {
      forall k | 0 <= k < |NatToString(n)| ensures NatToString(n)[k] != '\n' {
        assert IsDigit(NatToString(n)[k]);
      }
    }
    var lines := EntryLines(n, x);
    var withCategory := if Present(x.category) then head + "\n" + CategoryPrefix + x.category.value else head;
    if Present(x.category) {
      AppendAssoc(head + "\n", CategoryPrefix, x.category.value);
    }
    if Present(x.description) {
      AppendAssoc(withCategory + "\n", DescriptionPrefix, x.description.value);
    }
    var cat := if Present(x.category) then [CategoryPrefix + x.category.value] else [];
    var desc := if Present(x.description) then [DescriptionPrefix + x.description.value] else [];
    assert lines == [head] + cat + desc;
    if Present(x.category) && Present(x.description) {
      var c := CategoryPrefix + x.category.value;
      var e := DescriptionPrefix + x.description.value;
      assert lines == [head, c, e];
      assert lines[1..] == [c, e];
      assert Join([c, e], "\n") == c + "\n" + Join([e], "\n");
      AppendAssoc(head + "\n", c, "\n" + e);
      AppendAssoc(head + "\n" + c, "\n", e);
      AppendAssoc(c, "\n", e);
    }
  }

  /** The heading line gives back the title. */
  lemma ReadTitleOfHeading(n: nat, title: string)
    ensures ReadTitle(NatToString(n) + ". " + title) == title
  {
    var digits := NatToString(n);
    var line := digits + ". " + title;
    var d := LeadingDigits(line);
    assert line[|digits|] == '.';
    assert forall k :: 0 <= k < |digits| ==> IsDigit(line[k]);
    assert d == |digits|;
    assert line[d..] == ". " + title;
  }

  /** Reading the lines of an entry gives back what it shows. */
  lemma ReadEntryLines(n: nat, x: ContentIdea)
    ensures ReadEntry(EntryLines(n, x)) == Summary(x)
  {
    ReadTitleOfHeading(n, x.title);
    var lines := EntryLines(n, x);
    if Present(x.category) {
      var c := CategoryPrefix + x.category.value;
      assert c[..|CategoryPrefix|] == CategoryPrefix;
      assert c[|CategoryPrefix|..] == x.category.value;
    }
    if Present(x.description) {
      var d := DescriptionPrefix + x.description.value;
      assert d[..|DescriptionPrefix|] == DescriptionPrefix;
      assert d[|DescriptionPrefix|..] == x.description.value;
      assert d[3] != CategoryPrefix[3];
    }
  }

  /** Splitting the export into lines gives the entries' lines with one empty
      line between consecutive entries. */
  lemma {:induction false} ExportLines(xs: seq<ContentIdea>, start: nat)
    requires xs != []
    requires forall x :: x in xs ==> SingleLine(x)
    ensures Split(Join(EntryTexts(xs, start), "\n\n"), '\n') == Join(LineGroups(xs, start), [""])
  {
    assert xs[0] in xs;
    EntryAsLines(start, xs[0]);
    var lines0 := EntryLines(start, xs[0]);
    var e0 := EntryText(start, xs[0]);
    SplitJoin(lines0, '\n');
    if |xs| > 1 {
      assert forall x :: x in xs[1..] ==> x in xs;
      ExportLines(xs[1..], start + 1);
      var r := Join(EntryTexts(xs[1..], start + 1), "\n\n");
      assert Join(EntryTexts(xs, start), "\n\n") == e0 + ['\n'] + (['\n'] + r);
      SplitAround(e0, ['\n'] + r, '\n');
      assert ['\n'] + r == [] + ['\n'] + r;
      SplitAround([], r, '\n');
    }
  }

  /** Every group of lines in the export is free of empty lines. */
  lemma {:induction false} GroupsHaveNoEmptyLine(xs: seq<ContentIdea>, start: nat)
    requires forall x :: x in xs ==> SingleLine(x)
    ensures forall g :: g in LineGroups(xs, start) ==> "" !in g
  {
    if xs != [] {
      assert xs[0] in xs;
      EntryAsLines(start, xs[0]);
      assert forall x :: x in xs[1..] ==> x in xs;
      GroupsHaveNoEmptyLine(xs[1..], start + 1);
    }
  }

  lemma {:induction false} ReadEntriesOfGroups(xs: seq<ContentIdea>, start: nat)
    ensures ReadEntries(LineGroups(xs, start)) == Summaries(xs)
  {
    if xs != [] {
      ReadEntryLines(start, xs[0]);
      ReadEntriesOfGroups(xs[1..], start + 1);
    }
  }

  /** Exporting and reading back reproduces title, category and description
      of every idea, in order, when no field holds a line break. */
  lemma ExportRoundTrip(xs: seq<ContentIdea>)
    requires forall x :: x in xs ==> SingleLine(x)
    ensures ReadExport(ExportText(xs)) == Summaries(xs)
  {
    if xs != [] {
      var texts := EntryTexts(xs, 1);
      assert |ExportText(xs)| >= |texts[0]| > 0;
      ExportLines(xs, 1);
      GroupsHaveNoEmptyLine(xs, 1);
      SplitJoin(LineGroups(xs, 1), "");
      ReadEntriesOfGroups(xs, 1);
    }
  }
}
