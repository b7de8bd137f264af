/**
 * The client's idea-list store (the `useContentGeneration` hook): the current
 * ideas, the saved bookmark groups, the loading flag and the error message,
 * with the operations that generate, extend, bookmark and group ideas.
 * The network call is replaced by its response, and the clock and the random
 * source by parameters.
 */
module Store {
  import opened Wrappers
  import opened Text

  /** `ContentIdea`: description and category are optional. */
  datatype ContentIdea = ContentIdea(
    id: string,
    title: string,
    description: Option<string>,
    category: Option<string>,
    isBookmarked: bool)

  /** `BookmarkGroup`: a named snapshot of bookmarked ideas; `createdAt` is a
      clock reading in milliseconds. */
  datatype BookmarkGroup = BookmarkGroup(id: string, name: string, ideas: seq<ContentIdea>, createdAt: nat)

  /** `ApiResponse`, the envelope the edge function returns. */
  datatype ApiResponse = ApiResponse(success: bool, ideas: Option<seq<ContentIdea>>, error: Option<string>)

  const GenerateFailed := "Failed to generate ideas"
  const GenerateMoreFailed := "Failed to generate more ideas"

  /** `response.success && response.ideas` (an array is truthy even when empty). */
  predicate Succeeded(response: ApiResponse) {
    response.success && response.ideas.Some?
  }

  /** `response.error || fallback`. */
  function ErrorMessage(response: ApiResponse, fallback: string): (msg: string)
    ensures Present(response.error) ==> msg == response.error.value
    ensures !Present(response.error) ==> msg == fallback
  {
    if Present(response.error) then response.error.value else fallback
  }

  // ---------------------------------------------------------------------------
  // Client-side ids (useContentGeneration.ts lines 20-23 and 45-48)

  /** `${now}_${index}_${suffix}`, where `suffix` stands for the random part. */
  function BatchId(now: nat, index: nat, suffix: string): string {
    NatToString(now) + "_" + NatToString(index) + "_" + suffix
  }

  /** Two client ids are equal only if their clock readings and their
      positions are; the random suffixes play no part in telling them apart. */
  lemma BatchIdInjective(now: nat, i: nat, s: string, now': nat, j: nat, t: string)
    requires BatchId(now, i, s) == BatchId(now', j, t)
    ensures now == now' && i == j
  {
    DigitsHaveNoUnderscore(now);
    DigitsHaveNoUnderscore(now');
    DigitsHaveNoUnderscore(i);
    DigitsHaveNoUnderscore(j);
    var u := NatToString(i) + "_" + s;
    var v := NatToString(j) + "_" + t;
    assert BatchId(now, i, s) == NatToString(now) + ['_'] + u;
    assert BatchId(now', j, t) == NatToString(now') + ['_'] + v;
    HeadsBeforeSeparator(NatToString(now), u, NatToString(now'), v, '_');
    HeadsBeforeSeparator(NatToString(i), s, NatToString(j), t, '_');
    NatToStringInjective(now, now');
    NatToStringInjective(i, j);
  }

  /** A decimal rendering holds no `_`. */
  lemma DigitsHaveNoUnderscore(n: nat)
    ensures '_' !in NatToString(n)
  {
    forall k | 0 <= k < |NatToString(n)| ensures NatToString(n)[k] != '_' {
      assert IsDigit(NatToString(n)[k]);
    }
  }

  /** The `map` that gives every idea of a response a new id; `rand(i)` is the
      random suffix drawn for position `i`. Only the ids change. */
  function WithFreshIds(xs: seq<ContentIdea>, now: nat, rand: nat -> string): (ys: seq<ContentIdea>)
    ensures |ys| == |xs|
    ensures forall i :: 0 <= i < |xs| ==> ys[i].(id := xs[i].id) == xs[i]
  {
    seq(|xs|, i requires 0 <= i < |xs| => xs[i].(id := BatchId(now, i, rand(i))))
  }

  /** The ids given to one batch are pairwise distinct, whatever the random
      suffixes are. */
  lemma FreshIdsDistinct(xs: seq<ContentIdea>, now: nat, rand: nat -> string)
    ensures var ys := WithFreshIds(xs, now, rand);
      forall i, j :: 0 <= i < j < |ys| ==> ys[i].id != ys[j].id
  {
    var ys := WithFreshIds(xs, now, rand);
    forall i, j | 0 <= i < j < |ys| ensures ys[i].id != ys[j].id {
      if ys[i].id == ys[j].id {
        BatchIdInjective(now, i, rand(i), now, j, rand(j));
      }
    }
  }

  /** Batches re-identified at different clock readings share no id. */
  lemma BatchesDisjoint(xs: seq<ContentIdea>, now: nat, rand: nat -> string,
                        ys: seq<ContentIdea>, now': nat, rand': nat -> string)
    requires now != now'
    ensures var a := WithFreshIds(xs, now, rand); var b := WithFreshIds(ys, now', rand');
      forall i, j :: 0 <= i < |a| && 0 <= j < |b| ==> a[i].id != b[j].id
  {
    var a := WithFreshIds(xs, now, rand);
    var b := WithFreshIds(ys, now', rand');
    forall i, j | 0 <= i < |a| && 0 <= j < |b| ensures a[i].id != b[j].id {
      if a[i].id == b[j].id {
        BatchIdInjective(now, i, rand(i), now', j, rand'(j));
      }
    }
  }

  /** A list made by `generateIdeas` and extended by `generateMore` at a
      later clock reading has pairwise distinct ids. */
  lemma AppendedBatchesDistinct(xs: seq<ContentIdea>, now: nat, rand: nat -> string,
                                ys: seq<ContentIdea>, now': nat, rand': nat -> string)
    requires now != now'
    ensures var l := WithFreshIds(xs, now, rand) + WithFreshIds(ys, now', rand');
      forall i, j :: 0 <= i < j < |l| ==> l[i].id != l[j].id
  {
    var a := WithFreshIds(xs, now, rand);
    var b := WithFreshIds(ys, now', rand');
    var l := a + b;
    FreshIdsDistinct(xs, now, rand);
    FreshIdsDistinct(ys, now', rand');
    BatchesDisjoint(xs, now, rand, ys, now', rand');
    forall i, j | 0 <= i < j < |l| ensures l[i].id != l[j].id {
      if j < |a| {
        assert l[i] == a[i] && l[j] == a[j];
      } else if i < |a| {
        assert l[i] == a[i] && l[j] == b[j - |a|];
      } else {
        assert l[i] == b[i - |a|] && l[j] == b[j - |a|];
      }
    }
  }

  // ---------------------------------------------------------------------------
  // List transformations (lines 61-75, 77-94, 122-126)

  /** The `map` of `toggleBookmark`: flip the flag of the ideas with id `ideaId`. */
  function Toggled(xs: seq<ContentIdea>, ideaId: string): (ys: seq<ContentIdea>)
    ensures |ys| == |xs|
  {
    if xs == [] then []
    else
      var x := xs[0];
      [if x.id == ideaId then x.(isBookmarked := !x.isBookmarked) else x] + Toggled(xs[1..], ideaId)
  }

  /** Toggling flips the flag of exactly the ideas whose id matches and
      leaves every other idea as it was. */
  lemma {:induction false} ToggledAt(xs: seq<ContentIdea>, ideaId: string, i: nat)
    requires i < |xs|
    ensures Toggled(xs, ideaId)[i] ==
      if xs[i].id == ideaId then xs[i].(isBookmarked := !xs[i].isBookmarked) else xs[i]
  {
    if i > 0 {
      ToggledAt(xs[1..], ideaId, i - 1);
    }
  }

  /** Toggling the same id twice restores the list. */
  lemma {:induction false} ToggleTwice(xs: seq<ContentIdea>, ideaId: string)
    ensures Toggled(Toggled(xs, ideaId), ideaId) == xs
  {
    if xs != [] {
      var ys := Toggled(xs, ideaId);
      assert ys[1..] == Toggled(xs[1..], ideaId);
      ToggleTwice(xs[1..], ideaId);
    }
  }

  /** Toggling an id no idea carries changes nothing. */
  lemma {:induction false} ToggleUnknown(xs: seq<ContentIdea>, ideaId: string)
    requires forall x :: x in xs ==> x.id != ideaId
    ensures Toggled(xs, ideaId) == xs
  {
    if xs != [] {
      assert xs[0] in xs;
      assert forall x :: x in xs[1..] ==> x in xs;
      ToggleUnknown(xs[1..], ideaId);
    }
  }

  /** `ideas.filter(idea => idea.isBookmarked)`. */
  function Bookmarked(xs: seq<ContentIdea>): (ys: seq<ContentIdea>)
    ensures |ys| <= |xs|
    ensures forall y :: y in ys ==> y in xs && y.isBookmarked
  {
    if xs == [] then []
    else if xs[0].isBookmarked then [xs[0]] + Bookmarked(xs[1..])
    else Bookmarked(xs[1..])
  }

  /** Every bookmarked idea of the list is kept by the filter. */
  lemma {:induction false} BookmarkedComplete(xs: seq<ContentIdea>, x: ContentIdea)
    requires x in xs && x.isBookmarked
    ensures x in Bookmarked(xs)
  {
    if xs[0] != x {
      assert x in xs[1..];
      BookmarkedComplete(xs[1..], x);
    }
  }

  /** The filter keeps list order: filtering a concatenation concatenates the filters. */
  lemma {:induction false} BookmarkedAppend(xs: seq<ContentIdea>, ys: seq<ContentIdea>)
    ensures Bookmarked(xs + ys) == Bookmarked(xs) + Bookmarked(ys)
  {
    if xs == [] {
      assert xs + ys == ys;
    } else {
      assert (xs + ys)[0] == xs[0];
      assert (xs + ys)[1..] == xs[1..] + ys;
      BookmarkedAppend(xs[1..], ys);
    }
  }

  /** `ideas.map(idea => ({ ...idea, isBookmarked: false }))`. */
  function Cleared(xs: seq<ContentIdea>): (ys: seq<ContentIdea>)
    ensures |ys| == |xs|
  {
    if xs == [] then [] else [xs[0].(isBookmarked := false)] + Cleared(xs[1..])
  }

  /** Clearing unsets every flag and changes nothing else. */
  lemma {:induction false} ClearedAt(xs: seq<ContentIdea>, i: nat)
    requires i < |xs|
    ensures Cleared(xs)[i] == xs[i].(isBookmarked := false)
  {
    if i > 0 {
      ClearedAt(xs[1..], i - 1);
    }
  }

  /** Clearing twice is clearing once. */
  lemma {:induction false} ClearedIdempotent(xs: seq<ContentIdea>)
    ensures Cleared(Cleared(xs)) == Cleared(xs)
  {
    if xs != [] {
      var ys := Cleared(xs);
      assert ys[1..] == Cleared(xs[1..]);
      ClearedIdempotent(xs[1..]);
    }
  }

  /** After clearing, nothing is bookmarked. */
  lemma {:induction false} ClearedNothingBookmarked(xs: seq<ContentIdea>)
    ensures Bookmarked(Cleared(xs)) == []
  {
    if xs != [] {
      var ys := Cleared(xs);
      assert ys[1..] == Cleared(xs[1..]);
      ClearedNothingBookmarked(xs[1..]);
    }
  }

  /** A saved group holds at least one idea, each bookmarked when it was saved. */
  ghost predicate GroupWellFormed(g: BookmarkGroup) {
    g.ideas != [] && forall x :: x in g.ideas ==> x.isBookmarked
  }

  // ---------------------------------------------------------------------------
  // The store

  class IdeaStore {
    var ideas: seq<ContentIdea>
    var bookmarks: seq<BookmarkGroup>
    var isLoading: bool
    var error: Option<string>

    ghost predicate Valid()
      reads this
    {
      forall g :: g in bookmarks ==> GroupWellFormed(g)
    }

    /** The hook's initial state. */
    constructor ()
      ensures Valid()
      ensures ideas == [] && bookmarks == [] && !isLoading && error == None
    {
      ideas := [];
      bookmarks := [];
      isLoading := false;
      error := None;
    }

    /** `setIsLoading(true); setError(null)`, at the start of both requests. */
    method BeginRequest()
      modifies this
      ensures isLoading && error == None
      ensures ideas == old(ideas) && bookmarks == old(bookmarks)
    {
      isLoading := true;
      error := None;
    }

    /** `generateIdeas`, given the response of the request: a successful
        response replaces the list, any other sets the error. */
    method GenerateIdeas(response: ApiResponse, now: nat, rand: nat -> string)
      requires Valid()
      modifies this
      ensures Valid()
      ensures !isLoading && bookmarks == old(bookmarks)
      ensures Succeeded(response) ==>
        ideas == WithFreshIds(response.ideas.value, now, rand) && error == None
      ensures !Succeeded(response) ==>
        ideas == old(ideas) && error == Some(ErrorMessage(response, GenerateFailed))
    {
      BeginRequest();
      if response.success && response.ideas.Some? {
        var ideasWithUniqueIds := WithFreshIds(response.ideas.value, now, rand);
        ideas := ideasWithUniqueIds;
      } else {
        error := Some(ErrorMessage(response, GenerateFailed));
      }
      isLoading := false;
    }

    /** `generateMore`, given the response of the request: a successful
        response is appended, any other sets the error. */
    method GenerateMore(response: ApiResponse, now: nat, rand: nat -> string)
      requires Valid()
      modifies this
      ensures Valid()
      ensures !isLoading && bookmarks == old(bookmarks)
      ensures Succeeded(response) ==>
        ideas == old(ideas) + WithFreshIds(response.ideas.value, now, rand) && error == None
      ensures !Succeeded(response) ==>
        ideas == old(ideas) && error == Some(ErrorMessage(response, GenerateMoreFailed))
    {
      BeginRequest();
      if response.success && response.ideas.Some? {
        var newIdeas := WithFreshIds(response.ideas.value, now, rand);
        ideas := ideas + newIdeas;
      } else {
        error := Some(ErrorMessage(response, GenerateMoreFailed));
      }
      isLoading := false;
    }

    /** `toggleBookmark(ideaId)`. */
    method ToggleBookmark(ideaId: string)
      requires Valid()
      modifies this
      ensures Valid()
      ensures ideas == Toggled(old(ideas), ideaId)
      ensures bookmarks == old(bookmarks) && isLoading == old(isLoading) && error == old(error)
    {
      ideas := Toggled(ideas, ideaId);
    }

    /** `createBookmarkGroup(name)`; `now` is the clock reading that becomes
        the group's id and creation time. */
    method CreateBookmarkGroup(name: string, now: nat)
      requires Valid()
      modifies this
      ensures Valid()
      ensures isLoading == old(isLoading) && error == old(error)
      ensures Bookmarked(old(ideas)) == [] ==> ideas == old(ideas) && bookmarks == old(bookmarks)
      ensures Bookmarked(old(ideas)) != [] ==>
        && bookmarks == old(bookmarks) + [BookmarkGroup(NatToString(now), name, Bookmarked(old(ideas)), now)]
        && ideas == Cleared(old(ideas))
    {
      var bookmarkedIdeas := Bookmarked(ideas);
      if |bookmarkedIdeas| == 0 {
        return;
      }
      var newGroup := BookmarkGroup(NatToString(now), name, bookmarkedIdeas, now);
      bookmarks := bookmarks + [newGroup];
      ideas := Cleared(ideas);
    }

    /** `clearAllBookmarks()`. */
    method ClearAllBookmarks()
      requires Valid()
      modifies this
      ensures Valid()
      ensures ideas == Cleared(old(ideas))
      ensures bookmarks == old(bookmarks) && isLoading == old(isLoading) && error == old(error)
    {
      ideas := Cleared(ideas);
    }
  }
}
