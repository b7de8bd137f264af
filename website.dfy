/**
 * Website helpers used before generation: normalising the URL the user typed
 * and rendering extracted page metadata as extra context for the prompt.
 */
module Website {
  import opened Wrappers
  import opened Text

  /** `WebsiteData`: every field optional. */
  datatype WebsiteData = WebsiteData(
    title: Option<string>,
    description: Option<string>,
    image: Option<string>,
    author: Option<string>,
    publisher: Option<string>,
    date: Option<string>,
    lang: Option<string>,
    logo: Option<string>,
    url: Option<string>,
    contentText: Option<string>)

  // ---------------------------------------------------------------------------
  // normalizeUrl (websiteExtraction.ts lines 76-90)

  /** ASCII lower case; other characters are left alone. */
  function ToLowerAscii(c: char): char {
    if 'A' <= c <= 'Z' then (c as int + 32) as char else c
  }

  /** `s` starts with the lower-case ASCII `prefix`, ignoring ASCII case. */
  predicate StartsWithIgnoreCase(s: string, prefix: string) {
    |prefix| <= |s| && forall k :: 0 <= k < |prefix| ==> ToLowerAscii(s[k]) == prefix[k]
  }

  /** The test `/^https?:\/\//i`. */
  predicate HasHttpScheme(s: string) {
    StartsWithIgnoreCase(s, "http://") || StartsWithIgnoreCase(s, "https://")
  }

  /** `normalizeUrl(url)`: blank input is returned untouched; otherwise the
      trimmed input, prefixed with `https://` unless it already names an
      http(s) scheme. */
  function NormalizeUrl(url: string): (r: string)
    ensures AllSpace(url) ==> r == url
    ensures !AllSpace(url) ==> HasHttpScheme(r) && IsTrimmed(r)
    ensures !AllSpace(url) && HasHttpScheme(Trim(url)) ==> r == Trim(url)
    ensures !AllSpace(url) && !HasHttpScheme(Trim(url)) ==> r == "https://" + Trim(url)
  {
    if url == "" || Trim(url) == "" then url
    else
      var trimmed := Trim(url);
      if HasHttpScheme(trimmed) then trimmed
      else
        var r := "https://" + trimmed;
        assert StartsWithIgnoreCase(r, "https://") by {
          assert r[..8] == "https://";
        }
        assert r[|r| - 1] == trimmed[|trimmed| - 1];
        r
  }

  /** Normalising twice is normalising once. */
  lemma NormalizeUrlIdempotent(url: string)
    ensures NormalizeUrl(NormalizeUrl(url)) == NormalizeUrl(url)
  {
    if !AllSpace(url) {
      var r := NormalizeUrl(url);
      assert !AllSpace(r) by {
        assert !IsSpace(r[0]);
      }
    }
  }

  // ---------------------------------------------------------------------------
  // formatWebsiteDataForAI (websiteExtraction.ts lines 115-152)

  const MaxChars := 2000
  const Ellipsis := '\U{2026}'
  const Header := "\n\nExtracted Website Data:\n"
  const TitleHeading := "Website Title: "
  const DescriptionHeading := "Website Description: "
  const PublisherHeading := "Publisher/Brand: "
  const AuthorHeading := "Author: "
  const LanguageHeading := "Language: "
  const ExcerptHeading := "Website Text Excerpt:\n"

  /** The page text capped at `MaxChars` characters, with `…` when cut. */
  function Excerpt(text: string): (e: string)
    ensures |e| <= MaxChars + 1
    ensures |text| <= MaxChars ==> e == text
    ensures |text| > MaxChars ==> |e| == MaxChars + 1 && e[..MaxChars] == text[..MaxChars] && e[MaxChars] == Ellipsis
  {
    if |text| > MaxChars then text[..MaxChars] + [Ellipsis] else text
  }

  /** A labelled field of the rendering. */
  datatype Field = Field(heading: string, value: Option<string>)

  /** The fields that can appear, in the order they appear. */
  function Labelled(d: WebsiteData): seq<Field> {
    [ Field(TitleHeading, d.title),
      Field(DescriptionHeading, d.description),
      Field(PublisherHeading, d.publisher),
      Field(AuthorHeading, d.author),
      Field(LanguageHeading, d.lang),
      Field(ExcerptHeading, ExcerptOf(d.contentText)) ]
  }

  /** The excerpt of the page text, when there is one; it is present exactly
      when the page text is. */
  function ExcerptOf(text: Option<string>): (e: Option<string>)
    ensures Present(e) <==> Present(text)
    ensures e.Some? <==> text.Some?
  {
    if text.Some? then Some(Excerpt(text.value)) else None
  }

  /** The section of one field: `heading + value` when the value is present. */
  function Section(f: Field): seq<string> {
    if Present(f.value) then [f.heading + f.value.value] else []
  }

  /** One section per field whose value is present, in order. */
  function PresentSections(fields: seq<Field>): (sections: seq<string>)
    ensures |sections| <= |fields|
  {
    if fields == [] then [] else PresentSections(fields[..|fields| - 1]) + Section(fields[|fields| - 1])
  }

  function Sections(d: WebsiteData): seq<string> {
    PresentSections(Labelled(d))
  }

  /** Taking one more field adds that field's section at the end. */
  lemma PresentSectionsUpTo(fs: seq<Field>, k: nat)
    requires k < |fs|
    ensures PresentSections(fs[..k + 1]) == PresentSections(fs[..k]) + Section(fs[k])
  {
    assert fs[..k + 1][..k] == fs[..k];
  }

  /** No section at all exactly when no field has a present value. */
  lemma {:induction false} PresentSectionsEmptyIff(fs: seq<Field>)
    ensures PresentSections(fs) == [] <==> forall k :: 0 <= k < |fs| ==> !Present(fs[k].value)
  {
    if fs != [] {
      var init := fs[..|fs| - 1];
      PresentSectionsEmptyIff(init);
      assert forall k :: 0 <= k < |init| ==> init[k] == fs[k];
    }
  }

  /** Six fields give their sections appended one after another, the way the
      source pushes them. */
  lemma PresentSectionsOfSix(fs: seq<Field>)
    requires |fs| == 6
    ensures PresentSections(fs) ==
      [] + Section(fs[0]) + Section(fs[1]) + Section(fs[2]) + Section(fs[3]) + Section(fs[4]) + Section(fs[5])
  {
    assert fs[..0] == [];
    assert fs[..6] == fs;
    PresentSectionsUpTo(fs, 0);
    PresentSectionsUpTo(fs, 1);
    PresentSectionsUpTo(fs, 2);
    PresentSectionsUpTo(fs, 3);
    PresentSectionsUpTo(fs, 4);
    PresentSectionsUpTo(fs, 5);
  }

  /** `formatWebsiteDataForAI(websiteData)`: the sections are pushed one by one
      and then joined under the header. */
  method FormatWebsiteDataForAI(websiteData: Option<WebsiteData>) returns (r: string)
    ensures websiteData.None? ==> r == ""
    ensures websiteData.Some? && Sections(websiteData.value) == [] ==> r == ""
    ensures websiteData.Some? && Sections(websiteData.value) != [] ==>
      r == Header + Join(Sections(websiteData.value), "\n")
  {
    if websiteData.None? {
      return "";
    }
    var d := websiteData.value;
    ghost var fs := Labelled(d);
    var sections: seq<string> := [];
    if Present(d.title) {
      sections := sections + [TitleHeading + d.title.value];
    }
    assert sections == [] + Section(fs[0]);
    if Present(d.description) {
      sections := sections + [DescriptionHeading + d.description.value];
    }
    assert sections == [] + Section(fs[0]) + Section(fs[1]);
    if Present(d.publisher) {
      sections := sections + [PublisherHeading + d.publisher.value];
    }
    assert sections == [] + Section(fs[0]) + Section(fs[1]) + Section(fs[2]);
    if Present(d.author) {
      sections := sections + [AuthorHeading + d.author.value];
    }
    assert sections == [] + Section(fs[0]) + Section(fs[1]) + Section(fs[2]) + Section(fs[3]);
    if Present(d.lang) {
      sections := sections + [LanguageHeading + d.lang.value];
    }
    assert sections == [] + Section(fs[0]) + Section(fs[1]) + Section(fs[2]) + Section(fs[3]) + Section(fs[4]);
    ghost var beforeExcerpt := sections;
    if Present(d.contentText) {
      var text := d.contentText.value;
      var excerpt := if |text| > MaxChars then text[..MaxChars] + [Ellipsis] else text;
      assert excerpt == ExcerptOf(d.contentText).value;
      sections := sections + [ExcerptHeading + excerpt];
    }
    assert sections == beforeExcerpt + Section(fs[5]);
    PresentSectionsOfSix(fs);
    assert sections == Sections(d);
    r := if |sections| > 0 then Header + Join(sections, "\n") else "";
  }

  /** The rendering is empty exactly when none of title, description,
      publisher, author, language and page text is a non-empty string. */
  lemma NoSectionsIffNothingPresent(d: WebsiteData)
    ensures Sections(d) == [] <==>
      !Present(d.title) && !Present(d.description) && !Present(d.publisher) &&
      !Present(d.author) && !Present(d.lang) && !Present(d.contentText)
  {
    var fs := Labelled(d);
    PresentSectionsEmptyIff(fs);
    assert (forall k :: 0 <= k < |fs| ==> !Present(fs[k].value)) <==>
      !Present(fs[0].value) && !Present(fs[1].value) && !Present(fs[2].value) &&
      !Present(fs[3].value) && !Present(fs[4].value) && !Present(fs[5].value);
  }

  /** Image, date, logo and url never influence the rendering. */
  lemma IgnoredFieldsIrrelevant(d: WebsiteData, e: WebsiteData)
    requires d.title == e.title && d.description == e.description && d.publisher == e.publisher
    requires d.author == e.author && d.lang == e.lang && d.contentText == e.contentText
    ensures Sections(d) == Sections(e)
  {
    assert Labelled(d) == Labelled(e);
  }
}
