# AI content ideas helper — a verified model of its core logic

The application asks a language model for social-media content ideas for a
business. A Cloudflare Worker receives the business description, builds a
prompt, calls the model and normalises the reply into idea records. The
React client keeps the list of ideas and lets the user bookmark them. It
asks for more ideas like the bookmarked ones and exports the list as plain
text. Its state hook also offers saving the bookmarks as a named group and
clearing all bookmarks, which the shipped user interface does not call.
Before each generation started from the input form, an opt-in form collects
a name and an email. The page metadata of the user's website can be
added to the prompt as extra context.

This project models the sequential logic of those pieces in Dafny and proves
what they promise:

- `worker.dfy` (module `Worker`): the edge function's pure logic.
  - The continuation and lead-capture gates.
  - The normaliser of the model's reply. Its JSON path is a map. Its line-based fallback is a loop with an early stop at 15 ideas.
  - The liked-ideas block of the continuation prompt and the audience line of the initial prompt.
  - The data-centre and first/last-name extraction of the mailing-list signup.
- `store.dfy` (module `Store`): the client's idea-list store as a class `IdeaStore`.
  - Its fields are `ideas`, `bookmarks`, `isLoading` and `error`.
  - Its methods are generate, generate more, toggle bookmark, create bookmark group and clear all bookmarks.
  - The list transformations behind them are functions with their own lemmas.
- `export.dfy` (module `IdeaExport`): the text body of the plain-text export.
  - A reader for that layout proves that the export loses no title, category or description.
- `website.dfy` (module `Website`): URL normalisation, and the rendering of extracted website data as prompt context.
- `optin.dfy` (module `OptIn`): the email format check and the opt-in form's submit handler, as a class `OptInForm`.
- `text.dfy` (module `Text`): JavaScript string behaviour the modules rely on.
  - `trim` with JavaScript's white-space set.
  - `split` on a one-character separator, and `join`.
  - `indexOf`, and decimal rendering of naturals.
- `wrappers.dfy` (module `Wrappers`): `Option`.

The network response, `JSON.parse`'s outcome, `Date.now()` and
`Math.random()` are parameters of the operations that use them.

## Model

| member | source | states |
|---|---|---|
| Worker.Dispatch | cloudflare-worker/index.js:31-35 | At the dispatch step only a `null` body fails. Continuation mode is chosen exactly when `selectedIdeas` is a non-empty array or string. Lead capture never happens in continuation mode. |
| Worker.LeadCaptureForStringFields | cloudflare-worker/index.js:35 | For string-valued name and email, lead capture happens exactly on an initial request where both are non-empty. |
| Worker.LovedIdeasBlockRoundTrip | cloudflare-worker/index.js:210 | The liked titles joined by line breaks split back into the same titles, in order, when no title holds a line break. |
| Worker.AudienceContextLine | cloudflare-worker/index.js:181 | The audience line is empty exactly when `additionalContext` is missing or empty. Otherwise it is the label followed by the context. |
| Worker.SynthesizedIdInjective | cloudflare-worker/index.js:251 | Two ids `idea_<now>_<index>` from one call are equal only when their indices are. |
| Worker.MapJsonIdeas | cloudflare-worker/index.js:250-256 | The JSON path yields one idea per array element. |
| Worker.JsonIdeaFields | cloudflare-worker/index.js:251-255 | Idea `k` of the JSON path is element `k` with defaults. A truthy `id` is kept, else it is `idea_<now>_<k>`. A falsy title falls back to the element itself. A falsy description becomes `""` and a falsy category `General`. The bookmark flag is false. |
| Worker.ModelIdsKept | cloudflare-worker/index.js:251 | Ids the model supplies are kept as they are. Two elements with the same truthy id give two ideas with that same id (see Findings). |
| Worker.JsonIdeasSynthesizedIdsDistinct | cloudflare-worker/index.js:251 | Ids synthesised at two different positions of the JSON path differ. |
| Worker.StripEnumeration | cloudflare-worker/index.js:271 | When the line starts with ASCII digits followed by `.`, the result is the rest of the line after that prefix and all the white space following it. Otherwise the line is returned unchanged. The result is always a suffix of the line. |
| Worker.StripBullet | cloudflare-worker/index.js:271 | When the line starts with one of `-`, `*`, `â`, `€`, `¢`, the result is the rest of the line after that character and all the white space following it. Otherwise the line is returned unchanged. The result is always a suffix of the line. |
| Worker.NonBlank | cloudflare-worker/index.js:264 | The filter keeps only lines of the input, and every kept line is non-blank after trimming. Input with no blank line is kept whole. |
| Worker.NonBlankComplete | cloudflare-worker/index.js:264 | Every non-blank line is kept. |
| Worker.NonBlankAppend | cloudflare-worker/index.js:264 | Filtering a concatenation concatenates the filters, so line order is kept. |
| Worker.Produced | cloudflare-worker/index.js:269-281 | A line contributes at most one idea. |
| Worker.FlattenPrefix | cloudflare-worker/index.js:267 | The ideas of the first `i` lines form a prefix of the ideas of all lines. |
| Worker.FlattenMember | cloudflare-worker/index.js:273 | Every collected idea was produced by one of the lines. |
| Worker.CandidatesStep | cloudflare-worker/index.js:267-282 | One more iteration appends what the next line produces. |
| Worker.CandidatesPrefix | cloudflare-worker/index.js:267 | Stopping early keeps a prefix of the ideas an uncapped loop would collect. |
| Worker.FallbackIdeas | cloudflare-worker/index.js:264-284 | The fallback returns at most 15 ideas. |
| Worker.LoopExitCapped | cloudflare-worker/index.js:267 | Whichever loop condition ends the loop, the list is the first 15 ideas the lines produce, or all of them when there are fewer. |
| Worker.ExtractFromText | cloudflare-worker/index.js:264-284 | The loop's result is the capped list of ideas the non-blank lines produce, in line order. |
| Worker.ParseContentIdeas | cloudflare-worker/index.js:245-285 | A reply that parses to an array without `null` elements takes the JSON path. Unparseable text, a non-array value and an array with a `null` element take the fallback. A reply made only of white space, which `JSON.parse` rejects, yields no ideas. |
| Worker.BlankContentYieldsNothing | cloudflare-worker/index.js:264 | A reply made only of white space yields no fallback ideas. Blank text is a JSON syntax error, so the whole parser returns no ideas for it. |
| Worker.BlankLinesDropped | cloudflare-worker/index.js:264 | Lines that are all white space are all filtered out. |
| Worker.CleanTitleAlreadyTrimmed | cloudflare-worker/index.js:271 | The final `trim()` of the clean title changes nothing once the line has been trimmed. |
| Worker.ProducedFromLine | cloudflare-worker/index.js:269-279 | An idea a line produces satisfies `FromLine`. The trimmed line is non-empty and starts with neither `{` nor `[`. The title is that line without enumeration and bullet, and is non-empty. |
| Worker.LineProducesFromLine | cloudflare-worker/index.js:268-280 | A line that `FromLine` describes produces exactly that idea. |
| Worker.ProducedIffFromLine | cloudflare-worker/index.js:268-281 | A line produces an idea exactly when `FromLine` describes it. |
| Worker.ProducedCollected | cloudflare-worker/index.js:267-280 | The idea of a line reached while fewer than 15 ideas have been collected is in the capped list. |
| Worker.QualifyingLineKept | cloudflare-worker/index.js:264-280 | A non-blank line that `FromLine` describes, reached while fewer than 15 ideas have been collected, contributes its idea to the fallback's result. |
| Worker.CandidateOrigin | cloudflare-worker/index.js:267-281 | Every collected idea comes from some line as `FromLine` describes. |
| Worker.FallbackIdeaShape | cloudflare-worker/index.js:269-279 | Every fallback idea has a non-empty title, description `""`, category `General` and no bookmark. It comes from the non-blank line whose position its id records. |
| Worker.DistinctIdsExtend | cloudflare-worker/index.js:273 | Appending an idea with a new id keeps the ids pairwise distinct. |
| Worker.ProducedId | cloudflare-worker/index.js:274 | The id of an idea produced by line `i` is `idea_<now>_<i>`. |
| Worker.CandidateIdBelow | cloudflare-worker/index.js:274 | Every collected id records the position of a line. |
| Worker.CandidateIdsDistinct | cloudflare-worker/index.js:267-274 | The collected ids are pairwise distinct. |
| Worker.FallbackIdsDistinct | cloudflare-worker/index.js:267-274 | The ids the fallback returns in one call are pairwise distinct. |
| Worker.DataCentre | cloudflare-worker/index.js:296-297 | The data centre is the text between the first and second `-` of the key. It is `us10` when the key has no `-` or that text is empty. It is never empty and holds no `-`. |
| Worker.SplitName | cloudflare-worker/index.js:301-303 | The first name holds no space. If the trimmed name holds a space, first name, a space and last name give back the trimmed name. Otherwise the first name is the trimmed name and the last name is empty. |
| Store.ErrorMessage | src/hooks/useContentGeneration.ts:27 | The message is the response's error when it is a non-empty string, else the fallback text. |
| Store.BatchIdInjective | src/hooks/useContentGeneration.ts:20-23 | Two ids `<now>_<index>_<random>` are equal only when their clock readings and their indices are, whatever the random parts. |
| Store.WithFreshIds | src/hooks/useContentGeneration.ts:20-23 | Re-identified ideas keep the response's length and order. Each idea's title, description, category and flag are unchanged. Only the id changes. |
| Store.FreshIdsDistinct | src/hooks/useContentGeneration.ts:20-23 | The ids of one batch are pairwise distinct. |
| Store.BatchesDisjoint | src/hooks/useContentGeneration.ts:20-23 | Batches re-identified at different clock readings share no id. |
| Store.AppendedBatchesDistinct | src/hooks/useContentGeneration.ts:43-50 | A list produced by `generateIdeas` and extended by `generateMore` at a different clock reading has pairwise distinct ids. |
| Store.Toggled | src/hooks/useContentGeneration.ts:63-67 | Toggling keeps the length. |
| Store.ToggledAt | src/hooks/useContentGeneration.ts:63-67 | Toggling flips the flag of exactly the ideas whose id matches and leaves every other idea as it was. |
| Store.ToggleTwice | src/hooks/useContentGeneration.ts:61-75 | Toggling the same id twice restores the list. |
| Store.ToggleUnknown | src/hooks/useContentGeneration.ts:61-75 | Toggling an id that no idea carries changes nothing. |
| Store.Bookmarked | src/hooks/useContentGeneration.ts:78 | The filter keeps only bookmarked ideas of the list. |
| Store.BookmarkedComplete | src/hooks/useContentGeneration.ts:78 | Every bookmarked idea of the list is kept. |
| Store.BookmarkedAppend | src/hooks/useContentGeneration.ts:78 | Filtering a concatenation concatenates the filters, so list order is kept. |
| Store.Cleared | src/hooks/useContentGeneration.ts:91-93 | Clearing keeps the length. |
| Store.ClearedAt | src/hooks/useContentGeneration.ts:91-93 | Clearing unsets every flag and changes nothing else. |
| Store.ClearedIdempotent | src/hooks/useContentGeneration.ts:122-126 | Clearing twice is clearing once. |
| Store.ClearedNothingBookmarked | src/hooks/useContentGeneration.ts:122-126 | After clearing, no idea is bookmarked. |
| Store.IdeaStore.constructor | src/hooks/useContentGeneration.ts:6-9 | The initial state has no ideas, no groups, no loading and no error. |
| Store.IdeaStore.BeginRequest | src/hooks/useContentGeneration.ts:12-13 | Starting a request sets loading, clears the error and leaves ideas and groups alone. |
| Store.IdeaStore.GenerateIdeas | src/hooks/useContentGeneration.ts:11-34 | A successful response with ideas replaces the list with the re-identified ideas and leaves no error. Any other response leaves the list unchanged and sets the response's error or `Failed to generate ideas`. Loading ends false and the groups are untouched. |
| Store.IdeaStore.GenerateMore | src/hooks/useContentGeneration.ts:36-59 | A successful response appends the re-identified ideas, keeping the old list as a prefix. Any other response leaves the list unchanged and sets the response's error or `Failed to generate more ideas`. Loading ends false. |
| Store.IdeaStore.ToggleBookmark | src/hooks/useContentGeneration.ts:61-75 | The list becomes the toggled list. Nothing else changes. |
| Store.IdeaStore.CreateBookmarkGroup | src/hooks/useContentGeneration.ts:77-94 | With nothing bookmarked, nothing changes. Otherwise exactly one group is appended, holding the bookmarked ideas in list order with id and creation time from the clock. Then every flag is cleared. Every saved group stays non-empty and all-bookmarked. |
| Store.IdeaStore.ClearAllBookmarks | src/hooks/useContentGeneration.ts:122-126 | The list becomes the cleared list. Nothing else changes. |
| IdeaExport.EntryTexts | src/hooks/useContentGeneration.ts:97-108 | One entry per idea. |
| IdeaExport.ExportText | src/hooks/useContentGeneration.ts:97-109 | The export is empty exactly when there is no idea. |
| IdeaExport.EntryAsLines | src/hooks/useContentGeneration.ts:98-106 | For fields without line breaks, an entry consists of the lines `<n>. <title>`, then `   Category: <c>` when the category is non-empty, then `   Description: <d>` when the description is non-empty. No line is empty. |
| IdeaExport.ReadTitleOfHeading | src/hooks/useContentGeneration.ts:98 | The title can be read back from the heading line `<n>. <title>`. |
| IdeaExport.ReadEntryLines | src/hooks/useContentGeneration.ts:98-106 | Reading an entry's lines gives back its title, category and description, an absent or empty field reading as `""`. |
| IdeaExport.ExportLines | src/hooks/useContentGeneration.ts:109 | The lines of the export are the entries' lines with one empty line between consecutive entries. |
| IdeaExport.GroupsHaveNoEmptyLine | src/hooks/useContentGeneration.ts:98-106 | No entry contains an empty line. |
| IdeaExport.ReadEntriesOfGroups | src/hooks/useContentGeneration.ts:97-108 | Reading every entry gives back every idea's fields, in order. |
| IdeaExport.ExportRoundTrip | src/hooks/useContentGeneration.ts:97-109 | Exporting and reading back reproduces the title, category and description of every idea, in order, when no field holds a line break. |
| Website.NormalizeUrl | src/utils/websiteExtraction.ts:76-90 | Blank input comes back unchanged. Otherwise the result is trimmed and starts with an http(s) scheme, ignoring ASCII case. It is the trimmed input when that already has the scheme, else `https://` followed by the trimmed input. |
| Website.NormalizeUrlIdempotent | src/utils/websiteExtraction.ts:76-90 | Normalising twice is normalising once. |
| Website.Excerpt | src/utils/websiteExtraction.ts:140-146 | The excerpt has at most 2001 characters. It is the whole text up to 2000 characters. Beyond that it is the first 2000 characters followed by `…`. |
| Website.ExcerptOf | src/utils/websiteExtraction.ts:140-146 | The excerpt section is present exactly when the page text is. |
| Website.PresentSections | src/utils/websiteExtraction.ts:120-147 | There is at most one section per field. |
| Website.PresentSectionsUpTo | src/utils/websiteExtraction.ts:120-147 | Each further field appends its section, if any, at the end. |
| Website.PresentSectionsEmptyIff | src/utils/websiteExtraction.ts:120-147 | There are no sections exactly when no field has a non-empty value. |
| Website.PresentSectionsOfSix | src/utils/websiteExtraction.ts:120-147 | The sections of the six fields are appended in field order. |
| Website.FormatWebsiteDataForAI | src/utils/websiteExtraction.ts:115-152 | No data, or data without any section, gives `""`. Otherwise the result is the header followed by the sections joined by line breaks. The sections are title, description, publisher, author, language and excerpt, in that order, each when present. |
| Website.NoSectionsIffNothingPresent | src/utils/websiteExtraction.ts:118-151 | The rendering is empty exactly when none of title, description, publisher, author, language and page text is a non-empty string. |
| Website.IgnoredFieldsIrrelevant | src/utils/websiteExtraction.ts:118-151 | Image, date, logo and url never affect the rendering. |
| OptIn.ValidateEmailMatchesPattern | src/components/OptInModal.tsx:15-17 | The structural check accepts exactly the strings the regular expression `^[^\s@]+@[^\s@]+\.[^\s@]+$` matches. Those strings have no white space and exactly one `@` with something before it. The domain has a `.` that is neither its first nor its last character. |
| OptIn.PatternHasShape | src/components/OptInModal.tsx:16 | A matching address has the structural shape. |
| OptIn.ShapeMatches | src/components/OptInModal.tsx:16 | An address with the structural shape matches. |
| OptIn.ValidationErrorsMeaning | src/components/OptInModal.tsx:22-32 | A name error occurs exactly for a blank name, with `Name is required`. A blank email gives `Email is required`. Any other email has no error exactly when it matches the pattern, and otherwise `Please enter a valid email address`. |
| OptIn.SurroundingSpaceRejected | src/components/OptInModal.tsx:28-32 | A non-blank email with white space around it is reported as malformed, since the format check sees the untrimmed string. |
| OptIn.AcceptedInputShape | src/components/OptInModal.tsx:34-40 | When nothing is wrong, the name is not blank. The email has no white space, so its trimmed form is the email as typed. |
| OptIn.OptInForm.constructor | src/components/OptInModal.tsx:10-13 | The form starts empty, not submitting, without errors, and with no completed submission. |
| OptIn.OptInForm.HandleSubmit | src/components/OptInModal.tsx:19-41 | With any error, the errors are shown and neither the submitting flag nor the completions change. Without errors, the form becomes submitting and `onComplete` receives the trimmed name and email. The fields themselves are never changed. |
| Text.Trim | cloudflare-worker/index.js:268 | The result has no white space at either end. It is empty exactly when the input is all white space, and an already trimmed string is returned unchanged. `TrimIsMiddle` pins the exact result. |
| Text.TrimIsMiddle | cloudflare-worker/index.js:268 | For any split of the input into white space, a part with no white space at either end, and white space, the result is that middle part. Trimming removes the leading and trailing white space and nothing else. |
| Text.TrimStartDrops | cloudflare-worker/index.js:271 | Removing leading white space drops exactly the white-space run before the first other character. This is what `\s*` at the start of a pattern removes. |
| Text.TrimEndKeeps | cloudflare-worker/index.js:268 | Removing trailing white space keeps exactly the input up to its last other character. |
| Text.TrimNoSpace | src/components/OptInModal.tsx:40 | A string without white space is its own trim. |
| Text.JoinSplit | cloudflare-worker/index.js:301-303 | Joining the parts of a split with the separator gives back the string. |
| Text.SplitJoin | cloudflare-worker/index.js:264 | Splitting a join of separator-free parts gives back the parts. |
| Text.SplitHead | cloudflare-worker/index.js:296-297 | The first part of a split is the text before the first separator. The second part, if any, is the text between the first and the second. |
| Text.NatToStringInjective | src/hooks/useContentGeneration.ts:22 | Different numbers have different decimal renderings. |

## Findings

| source | as written | input that shows it | evidently intended | confidence | as-written member | corrected member |
|---|---|---|---|---|---|---|
| cloudflare-worker/index.js:251 | the JSON path keeps any truthy `id` the model supplies | a reply `[{"id":"x"},{"id":"x"}]` gives two ideas whose id is `x` | the ideas of one reply carry distinct ids | not executed | Worker.ModelIdsKept | Store.FreshIdsDistinct |

The client re-identifies every idea of a response (src/hooks/useContentGeneration.ts:19-23), so the ids in the store are distinct within a batch whatever the worker returns. The store model uses that re-identification.

## Left out

- The Worker's HTTP handler is not modelled: CORS and preflight, the 405 reply, the OpenAI `fetch` and the 500 envelopes are I/O. Only the mode dispatch is modelled.
- The Mailchimp and Google Sheets calls, `ctx.waitUntil` with `Promise.all`, and logging are network and detached work. Only the data-centre and name extraction are modelled.
- The prompt templates and the system prompt are constant prose. Only the liked-ideas block and the optional audience line are modelled.
- `JSON.parse` is an input. Its outcome is either a syntax error or a parsed JSON value.
- `Date.now()` is read once per call and passed in. In the source, each element and each kept line reads the clock again, so ids of one call could carry different clock values. The model does not capture that.
- `Math.random().toString(36).substr(2, 9)` is a parameter `rand` that maps a position to a suffix.
- Strings are sequences of Unicode scalar values. JavaScript counts UTF-16 code units, so the 2000-character excerpt cap and `length` tests can differ for characters outside the Basic Multilingual Plane.
- Worker.Dispatch: an object-valued `selectedIdeas` with its own `length` key is treated as having no length.
- Worker.Dispatch: a non-empty string `selectedIdeas` selects continuation, and the continuation prompt's `selectedIdeas.join('\n')` (cloudflare-worker/index.js:210) then throws, which the handler turns into a 500. The model stops at the dispatch decision. `LovedIdeasBlock` takes the list of titles, so this failure after dispatch is not modelled.
- Worker.LovedIdeasBlock: elements of `selectedIdeas` that are not strings are not modelled. The client always sends strings.
- The client's `catch` branch, with "An unexpected error occurred", is not modelled. `src/utils/api.ts` catches every failure and returns an error response instead, and is not part of this model.
- `extractWebsiteData` with its Microlink and Jina fetches, and `isValidUrl`, are left out. They are network clients and the WHATWG `URL` constructor.
- The Blob and DOM download in `exportToTxt`, and the file name built from `toISOString()`, are left out. Only the text body is modelled.
- React components and JSX are not modelled. This covers the input form, bookmark panel, idea list, export options, the opt-in modal's markup and the timer-driven progress overlay.
- The rule in `src/App.tsx` that asks for more ideas with the bookmarked titles is not modelled. Without bookmarks, that rule re-runs the initial generation with the stored name and email (src/App.tsx:49-50, 69-70), so the worker captures the lead again. The model does not cover this either.
- The worker returns JSON values where the client's `ContentIdea` expects strings. The model does not connect the two.
- Store.IdeaStore.GenerateMore: distinct ids across batches are proved only for batches with different clock readings (`Store.AppendedBatchesDistinct`). Two requests served within the same millisecond rely on the random suffixes, which the model does not constrain. The store does not carry "no two ideas share an id" as an invariant over arbitrary histories.
- Store.IdeaStore.CreateBookmarkGroup: the source reads the clock twice, once for `id` and once for `createdAt`. The model uses one reading for both. `createdAt` is a millisecond count rather than a `Date` object.
- OptIn.OptInForm.HandleSubmit: the form's closing and the parent's reaction to `onComplete` are outside the form. Calls to `onComplete` are recorded in the `completed` log.
