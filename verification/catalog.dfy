/** The voice catalog: loading the voice list, projecting the community
    list and filtering it by search term and language. */
module Catalog {
  import opened Options
  import opened Lists
  import opened Strings
  import opened Voices

  /** The cap on the community list (`maxCommunityVoices`). */
  const MaxCommunityVoices: nat := 50

  /** `loadVoices`: the store's answer replaces the voice list; a failed
      fetch (`None`) leaves the state as it was. */
  function LoadVoices(app: App, answer: Option<seq<Voice>>): (r: App)
    ensures answer.Some? ==> r.voices == answer.value
    ensures answer.None? ==> r == app
    ensures r.community == app.community && r.selection == app.selection
    ensures r.currentUser == app.currentUser
  {
    match answer
    case Some(fetched) => app.(voices := fetched)
    case None => app
  }

  /** The community list built from the public voices the store returned:
      reversed, so the last one fetched comes first, and cut to `cap`. */
  function ProjectCommunity(fetched: seq<Voice>, cap: nat): (r: seq<Voice>)
    ensures |r| == Min(|fetched|, cap)
    ensures forall i :: 0 <= i < |r| ==> r[i] == fetched[|fetched| - 1 - i]
  {
    var reversed := Reverse(fetched);
    reversed[..Min(|reversed|, cap)]
  }

  /** `loadCommunityVoices`: a successful fetch replaces the community cache
      with its projection; a failed one leaves the state as it was. */
  function LoadCommunity(app: App, answer: Option<seq<Voice>>): (r: App)
    ensures answer.Some? ==> r.community.Some?
    ensures answer.Some? ==> |r.community.value| == Min(|answer.value|, MaxCommunityVoices)
    ensures answer.Some? ==> forall i :: 0 <= i < |r.community.value| ==>
              r.community.value[i] == answer.value[|answer.value| - 1 - i]
    ensures answer.Some? ==> r == app.(community := r.community)
    ensures answer.None? ==> r == app
  {
    match answer
    case Some(fetched) => app.(community := Some(ProjectCommunity(fetched, MaxCommunityVoices)))
    case None => app
  }

  /** A description counts only when present and non-empty (JavaScript truthiness). */
  predicate HasDescription(v: Voice)
  {
    v.record.description.Some? && v.record.description.value != ""
  }

  /** The search half of the filter, for an already lower-cased term. */
  predicate MatchesSearch(v: Voice, term: string)
  {
    || Contains(Lower(v.record.name), term)
    || (HasDescription(v) && Contains(Lower(v.record.description.value), term))
  }

  /** The language half of the filter: an empty filter accepts every voice. */
  predicate MatchesLanguage(v: Voice, language: string)
  {
    language == "" || v.record.language == language
  }

  /** The predicate `filterCommunityVoices` applies for the raw search box value. */
  predicate Matches(v: Voice, search: string, language: string)
  {
    MatchesSearch(v, Lower(search)) && MatchesLanguage(v, language)
  }

  /** With no search text and no language every voice matches, so the
      filter returns the list unchanged. */
  lemma EmptyFilterKeepsAll(vs: seq<Voice>, search: string, language: string)
    ensures search == "" && language == "" ==> Keep(vs, v => Matches(v, search, language)) == vs
  {
    if search == "" && language == "" {
      forall i | 0 <= i < |vs|
        ensures Matches(vs[i], search, language)
      {
        ContainsEmpty(Lower(vs[i].record.name));
      }
      KeepAll(vs, v => Matches(v, search, language));
    }
  }

  /** The voices of `vs` that match, in order. */
  function FilterVoices(vs: seq<Voice>, search: string, language: string): (r: seq<Voice>)
    ensures |r| <= |vs|
    ensures forall i :: 0 <= i < |r| ==>
              && (|| Contains(Lower(r[i].record.name), Lower(search))
                  || (HasDescription(r[i]) && Contains(Lower(r[i].record.description.value), Lower(search))))
              && (language != "" ==> r[i].record.language == language)
    ensures search == "" && language == "" ==> r == vs
  {
    EmptyFilterKeepsAll(vs, search, language);
    Keep(vs, v => Matches(v, search, language))
  }

  /** The filter keeps exactly the matching voices, at increasing positions
      of the community list, so it is an order-preserving subsequence. */
  lemma FilterSelects(vs: seq<Voice>, search: string, language: string) returns (idx: seq<int>)
    ensures SelectsAt(FilterVoices(vs, search, language), vs, idx)
    ensures forall j :: 0 <= j < |vs| ==> (Matches(vs[j], search, language) <==> j in idx)
  {
    idx := KeepSelects(vs, v => Matches(v, search, language));
  }

  /** A voice appears in the filtered list exactly when it is in the community
      list and matches. */
  lemma FilterMembership(vs: seq<Voice>, search: string, language: string, v: Voice)
    ensures v in FilterVoices(vs, search, language) <==> v in vs && Matches(v, search, language)
  {
    var r := FilterVoices(vs, search, language);
    var idx := FilterSelects(vs, search, language);
    if v in r {
      var k :| 0 <= k < |r| && r[k] == v;
      assert vs[idx[k]] == v;
    }
    if v in vs && Matches(v, search, language) {
      var j :| 0 <= j < |vs| && vs[j] == v;
      assert j in idx;
      var k :| 0 <= k < |idx| && idx[k] == j;
      assert r[k] == v;
    }
  }

  /** `filterCommunityVoices`: filtering the cached community list. Before the
      first successful load the cache is undefined and the handler throws
      (`None`); otherwise the cache itself is left as it was. */
  function FilterCommunity(app: App, search: string, language: string): (r: Option<seq<Voice>>)
    ensures r.None? <==> app.community.None?
    ensures r.Some? ==> |r.value| <= |app.community.value|
    ensures r.Some? ==> forall i :: 0 <= i < |r.value| ==> Matches(r.value[i], search, language)
    ensures r.Some? && search == "" && language == "" ==> r.value == app.community.value
  {
    match app.community
    case None => None
    case Some(vs) => Some(FilterVoices(vs, search, language))
  }
}
