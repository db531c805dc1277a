/** `recommend_anime` and `get_default_recs`: candidate selection, the two de-duplication
    passes, the episode and hidden-gem filters, the shuffle, and the ranking tail. The keyword
    list, the fetch answers and the shuffle's random draws are parameters. */
module Recommender {
  import opened Wrappers
  import opened Seqs
  import opened Catalog
  import opened Parser
  import opened Selection
  import opened Shuffling
  import opened Ranking

  /** The two de-duplication passes: first by exact url, then by base title, each keeping the
      first occurrence. Neither shared urls nor shared base titles survive, and the order of
      the candidates is kept. */
  function DedupePasses(candidates: seq<Anime>): (r: seq<Anime>)
    ensures DistinctBy(r, Url) && DistinctBy(r, BaseKey)
    ensures Subseq(r, candidates)
    ensures forall i :: 0 <= i < |r| ==>
      Url(r[i]) in KeysOf(candidates, Url) && r[i] == candidates[FirstIndex(candidates, Url, Url(r[i]))]
    ensures forall i :: 0 <= i < |candidates| && FirstOfKey(candidates, Url, i) ==>
      BaseKey(candidates[i]) in KeysOf(r, BaseKey)
    ensures forall i :: 0 <= i < |candidates| && FirstOfKey(candidates, Url, i) && FirstOfKey(candidates, BaseKey, i) ==>
      candidates[i] in r
  {
    var byUrl := DedupeBy(candidates, Url);
    var byBase := DedupeBy(byUrl, BaseKey);
    DistinctAfterSubseq(byBase, byUrl, Url);
    SubseqTransitive(byBase, byUrl, candidates);
    PassesKeepOnlyFirsts(candidates, byUrl, byBase);
    PassesKeepBaseTitles(candidates, byUrl, byBase);
    PassesKeepDoubleFirsts(candidates, byUrl, byBase);
    byBase
  }

  /** Only the first record of each url survives the two passes. */
  lemma PassesKeepOnlyFirsts(candidates: seq<Anime>, byUrl: seq<Anime>, byBase: seq<Anime>)
    requires byUrl == DedupeBy(candidates, Url) && byBase == DedupeBy(byUrl, BaseKey)
    ensures forall i :: 0 <= i < |byBase| ==>
      Url(byBase[i]) in KeysOf(candidates, Url) && byBase[i] == candidates[FirstIndex(candidates, Url, Url(byBase[i]))]
  {
    SubseqMultiset(byBase, byUrl);
    forall i | 0 <= i < |byBase|
      ensures Url(byBase[i]) in KeysOf(candidates, Url) && byBase[i] == candidates[FirstIndex(candidates, Url, Url(byBase[i]))]
    {
      assert byBase[i] in multiset(byBase);
      var j :| 0 <= j < |byUrl| && byUrl[j] == byBase[i];
    }
  }

  /** The base title of every record first by url is kept. */
  lemma PassesKeepBaseTitles(candidates: seq<Anime>, byUrl: seq<Anime>, byBase: seq<Anime>)
    requires forall i :: 0 <= i < |candidates| && FirstOfKey(candidates, Url, i) ==> candidates[i] in byUrl
    requires KeysOf(byBase, BaseKey) == KeysOf(byUrl, BaseKey)
    ensures forall i :: 0 <= i < |candidates| && FirstOfKey(candidates, Url, i) ==>
      BaseKey(candidates[i]) in KeysOf(byBase, BaseKey)
  {
    forall i | 0 <= i < |candidates| && FirstOfKey(candidates, Url, i)
      ensures BaseKey(candidates[i]) in KeysOf(byBase, BaseKey)
    {
      var j :| 0 <= j < |byUrl| && byUrl[j] == candidates[i];
      assert BaseKey(byUrl[j]) in KeysOf(byUrl, BaseKey);
    }
  }

  /** Every record first both by url and by base title survives the two passes. */
  lemma PassesKeepDoubleFirsts(candidates: seq<Anime>, byUrl: seq<Anime>, byBase: seq<Anime>)
    requires byUrl == DedupeBy(candidates, Url) && byBase == DedupeBy(byUrl, BaseKey)
    ensures forall i :: 0 <= i < |candidates| && FirstOfKey(candidates, Url, i) && FirstOfKey(candidates, BaseKey, i) ==>
      candidates[i] in byBase
  {
    forall i | 0 <= i < |candidates| && FirstOfKey(candidates, Url, i) && FirstOfKey(candidates, BaseKey, i)
      ensures candidates[i] in byBase
    {
      var j := UrlFirstIsBaseFirst(candidates, byUrl, i);
    }
  }

  /** A record first both by url and by base title is still first by base title after the url
      pass. */
  lemma UrlFirstIsBaseFirst(candidates: seq<Anime>, byUrl: seq<Anime>, i: nat) returns (j: nat)
    requires byUrl == DedupeBy(candidates, Url)
    requires i < |candidates| && FirstOfKey(candidates, Url, i) && FirstOfKey(candidates, BaseKey, i)
    ensures j < |byUrl| && byUrl[j] == candidates[i] && FirstOfKey(byUrl, BaseKey, j)
  {
    j :| 0 <= j < |byUrl| && byUrl[j] == candidates[i];
    assert Url(candidates[i]) in KeysOf(candidates, Url);
    assert FirstIndex(candidates, Url, Url(byUrl[j])) == i;
    forall j' | 0 <= j' < j
      ensures BaseKey(byUrl[j']) != BaseKey(byUrl[j])
    {
      var p := FirstIndex(candidates, Url, Url(byUrl[j']));
      assert p < i;
      assert byUrl[j'] == candidates[p];
    }
  }

  /** A season entry listed after its series has the series' base title and is dropped by the
      second pass, while the series stays. */
  lemma SeasonDropped()
    ensures var series := Anime("Title", "u1", None, None);
      var season := Anime("Title: Season 2", "u2", None, None);
      DedupePasses([series, season]) == [series]
  {
    var series := Anime("Title", "u1", None, None);
    var season := Anime("Title: Season 2", "u2", None, None);
    SeasonKeys(series, season);
    SameBaseDropped(series, season);
  }

  lemma SeasonKeys(series: Anime, season: Anime)
    requires series == Anime("Title", "u1", None, None)
    requires season == Anime("Title: Season 2", "u2", None, None)
    ensures Url(series) != Url(season) && BaseKey(season) == BaseKey(series)
  {
    var t: string := "Title";
    var rest: string := " Season 2";
    assert ':' !in t && '-' !in t;
    assert season.title == t + [':'] + rest;
    VariantSharesBaseTitle(t, ':', rest);
    assert Url(series)[1] != Url(season)[1];
  }

  /** Of two records with different urls and one base title, the passes keep the first. */
  lemma SameBaseDropped(x: Anime, y: Anime)
    requires Url(x) != Url(y) && BaseKey(x) == BaseKey(y)
    ensures DedupePasses([x, y]) == [x]
  {
    DedupeByDifferent(x, y, Url);
    DedupeBySame(x, y, BaseKey);
  }

  lemma DedupeByDifferent<K>(x: Anime, y: Anime, key: Anime -> K)
    requires key(x) != key(y)
    ensures DedupeBy([x, y], key) == [x, y]
  {
    var seen1: set<K> := {} + {key(x)};
    assert [x, y][1..] == [y] && [y][1..] == [];
    assert DedupeFrom([y], key, seen1) == [y] + [];
    assert DedupeFrom([x, y], key, {}) == [x] + [y];
  }

  lemma DedupeBySame<K>(x: Anime, y: Anime, key: Anime -> K)
    requires key(x) == key(y)
    ensures DedupeBy([x, y], key) == [x]
  {
    var seen1: set<K> := {} + {key(x)};
    assert [x, y][1..] == [y] && [y][1..] == [];
    assert DedupeFrom([y], key, seen1) == [];
    assert DedupeFrom([x, y], key, {}) == [x] + [];
  }

  /** The episode-ceiling filter, when the query set a ceiling. */
  function EpisodeFilter(s: seq<Anime>, maxEpisodes: Option<nat>): (r: seq<Anime>)
    ensures Subseq(r, s)
    ensures maxEpisodes.Some? ==> forall i :: 0 <= i < |r| ==> EpisodesWithin(r[i], maxEpisodes.value)
    ensures maxEpisodes.Some? ==> forall i :: 0 <= i < |s| && EpisodesWithin(s[i], maxEpisodes.value) ==> s[i] in r
    ensures maxEpisodes.Some? ==>
      forall x :: multiset(r)[x] == if EpisodesWithin(x, maxEpisodes.value) then multiset(s)[x] else 0
    ensures maxEpisodes.None? ==> r == s
  {
    if maxEpisodes.Some? then
      var r := Filter(s, a => EpisodesWithin(a, maxEpisodes.value));
      assert forall i :: 0 <= i < |s| ==> s[i] in multiset(s);
      r
    else
      SubseqReflexive(s);
      s
  }

  /** The hidden-gem filter, when the query asked for hidden gems. */
  function HiddenGemFilter(s: seq<Anime>, hiddenGem: bool): (r: seq<Anime>)
    ensures Subseq(r, s)
    ensures hiddenGem ==> forall i :: 0 <= i < |r| ==> HiddenGemScore(r[i])
    ensures hiddenGem ==> forall i :: 0 <= i < |s| && HiddenGemScore(s[i]) ==> s[i] in r
    ensures hiddenGem ==> forall x :: multiset(r)[x] == if HiddenGemScore(x) then multiset(s)[x] else 0
    ensures !hiddenGem ==> r == s
  {
    if hiddenGem then
      var r := Filter(s, HiddenGemScore);
      assert forall i :: 0 <= i < |s| ==> s[i] in multiset(s);
      r
    else
      SubseqReflexive(s);
      s
  }

  /** The post-fetch passes before the shuffle, in source order: de-duplicate by url, then by
      base title, then apply the episode ceiling, then the hidden-gem test. */
  function Prepare(candidates: seq<Anime>, intent: Intent): (r: seq<Anime>)
    ensures DistinctBy(r, Url) && DistinctBy(r, BaseKey)
    ensures Subseq(r, candidates)
    ensures intent.maxEpisodes.Some? ==> forall i :: 0 <= i < |r| ==> EpisodesWithin(r[i], intent.maxEpisodes.value)
    ensures intent.hiddenGem ==> forall i :: 0 <= i < |r| ==> HiddenGemScore(r[i])
  {
    var unique := DedupePasses(candidates);
    var short := EpisodeFilter(unique, intent.maxEpisodes);
    var gems := HiddenGemFilter(short, intent.hiddenGem);
    PrepareOrder(candidates, unique, short, gems);
    PrepareCeiling(short, gems, intent.maxEpisodes);
    gems
  }

  lemma PrepareCeiling(short: seq<Anime>, gems: seq<Anime>, maxEpisodes: Option<nat>)
    requires Subseq(gems, short)
    requires maxEpisodes.Some? ==> forall i :: 0 <= i < |short| ==> EpisodesWithin(short[i], maxEpisodes.value)
    ensures maxEpisodes.Some? ==> forall i :: 0 <= i < |gems| ==> EpisodesWithin(gems[i], maxEpisodes.value)
  {
    if maxEpisodes.Some? {
      SubseqKeeps(gems, short, a => EpisodesWithin(a, maxEpisodes.value));
    }
  }

  lemma PrepareOrder(candidates: seq<Anime>, unique: seq<Anime>, short: seq<Anime>, gems: seq<Anime>)
    requires Subseq(unique, candidates) && Subseq(short, unique) && Subseq(gems, short)
    requires DistinctBy(unique, Url) && DistinctBy(unique, BaseKey)
    ensures DistinctBy(gems, Url) && DistinctBy(gems, BaseKey)
    ensures Subseq(gems, candidates)
  {
    SubseqTransitive(gems, short, unique);
    SubseqTransitive(gems, unique, candidates);
    DistinctAfterSubseq(gems, unique, Url);
    DistinctAfterSubseq(gems, unique, BaseKey);
  }

  lemma DistinctAfterSubseq<K>(a: seq<Anime>, b: seq<Anime>, key: Anime -> K)
    requires Subseq(a, b)
    requires DistinctBy(b, key)
    ensures DistinctBy(a, key)
  {
    SubseqMultiset(a, b);
    DistinctBySubMultiset(a, b, key);
  }

  /** What `recommend_anime` promises of its ranked records `r`, given the selected candidates,
      the records left after de-duplication and filtering, and the parsed intent: at most
      `TopN`, best first, no shared url or base title, every ceiling and preference honoured,
      drawn from the prepared records, and no prepared record left out ranks higher than one
      returned. */
  predicate RankedFrom(r: seq<Anime>, candidates: seq<Anime>, prepared: seq<Anime>, intent: Intent) {
    && |r| == (if |prepared| < TopN then |prepared| else TopN)
    && SortedByScore(r)
    && DistinctBy(r, Url) && DistinctBy(r, BaseKey)
    && (intent.maxEpisodes.Some? ==> forall i :: 0 <= i < |r| ==> EpisodesWithin(r[i], intent.maxEpisodes.value))
    && (intent.hiddenGem ==> forall i :: 0 <= i < |r| ==> HiddenGemScore(r[i]))
    && multiset(r) <= multiset(prepared)
    && (forall i :: 0 <= i < |r| ==> r[i] in candidates)
    && (forall i, x :: 0 <= i < |r| && x in multiset(prepared) - multiset(r) ==> ScoreKey(x) <= ScoreKey(r[i]))
  }

  /** The pipeline of `recommend_anime` up to the projection: the ranked records, for every
      sequence of shuffle draws. */
  function RecommendRecords(tokens: seq<string>, directory: map<string, int>, query: string,
                            f: Fetched, draws: seq<nat>): (r: seq<Anime>)
    ensures var intent := ParseUserRequest(tokens, directory);
      var candidates := SelectCandidates(intent.genres, directory, query, f).candidates;
      RankedFrom(r, candidates, Prepare(candidates, intent), intent)
  {
    var intent := ParseUserRequest(tokens, directory);
    var candidates := SelectCandidates(intent.genres, directory, query, f).candidates;
    var prepared := Prepare(candidates, intent);
    var shuffled := Shuffle(prepared, draws);
    var r := Rank(shuffled);
    RankedFromPrepared(candidates, intent, prepared, shuffled, r);
    r
  }

  lemma RankedFromPrepared(candidates: seq<Anime>, intent: Intent, prepared: seq<Anime>, shuffled: seq<Anime>, r: seq<Anime>)
    requires DistinctBy(prepared, Url) && DistinctBy(prepared, BaseKey)
    requires Subseq(prepared, candidates)
    requires intent.maxEpisodes.Some? ==> forall i :: 0 <= i < |prepared| ==> EpisodesWithin(prepared[i], intent.maxEpisodes.value)
    requires intent.hiddenGem ==> forall i :: 0 <= i < |prepared| ==> HiddenGemScore(prepared[i])
    requires multiset(shuffled) == multiset(prepared)
    requires r == Rank(shuffled)
    ensures RankedFrom(r, candidates, prepared, intent)
  {
    assert |shuffled| == |multiset(shuffled)| == |prepared|;
    DistinctBySubMultiset(r, prepared, Url);
    DistinctBySubMultiset(r, prepared, BaseKey);
    RankedMembers(candidates, prepared, r);
  }

  /** Records drawn from the prepared list are prepared records and candidates. */
  lemma RankedMembers(candidates: seq<Anime>, prepared: seq<Anime>, r: seq<Anime>)
    requires Subseq(prepared, candidates)
    requires multiset(r) <= multiset(prepared)
    ensures forall i :: 0 <= i < |r| ==> r[i] in prepared && r[i] in candidates
  {
    SubseqMultiset(prepared, candidates);
    forall i | 0 <= i < |r|
      ensures r[i] in prepared && r[i] in candidates
    {
      assert r[i] in multiset(r);
      assert r[i] in multiset(prepared);
    }
  }

  /** `recommend_anime`: the ranked records as `{title, url}` picks. No two picks share a url
      or a base title, and there are at most `TopN` of them. */
  function RecommendAnime(tokens: seq<string>, directory: map<string, int>, query: string,
                          f: Fetched, draws: seq<nat>): (r: seq<Pick>)
    ensures |r| <= TopN
    ensures forall i, j :: 0 <= i < j < |r| ==> r[i].url != r[j].url
    ensures forall i, j :: 0 <= i < j < |r| ==> BaseTitle(r[i].title) != BaseTitle(r[j].title)
    ensures var intent := ParseUserRequest(tokens, directory);
      var candidates := SelectCandidates(intent.genres, directory, query, f).candidates;
      forall i :: 0 <= i < |r| ==> r[i] in ProjectAll(Prepare(candidates, intent))
  {
    var records := RecommendRecords(tokens, directory, query, f, draws);
    var intent := ParseUserRequest(tokens, directory);
    var candidates := SelectCandidates(intent.genres, directory, query, f).candidates;
    RankedPicks(records, candidates, Prepare(candidates, intent), intent);
    ProjectAll(records)
  }

  /** The picks of ranked records: at most `TopN`, distinct by url and base title, each the
      pick of a prepared record. */
  lemma RankedPicks(records: seq<Anime>, candidates: seq<Anime>, prepared: seq<Anime>, intent: Intent)
    requires RankedFrom(records, candidates, prepared, intent)
    ensures var r := ProjectAll(records);
      && |r| <= TopN
      && (forall i, j :: 0 <= i < j < |r| ==> r[i].url != r[j].url)
      && (forall i, j :: 0 <= i < j < |r| ==> BaseTitle(r[i].title) != BaseTitle(r[j].title))
      && (forall i :: 0 <= i < |r| ==> r[i] in ProjectAll(prepared))
  {
    ProjectKeepsDistinct(records);
    PicksListed(prepared, records);
  }

  lemma ProjectKeepsDistinct(records: seq<Anime>)
    requires |records| <= TopN
    requires DistinctBy(records, Url) && DistinctBy(records, BaseKey)
    ensures var r := ProjectAll(records);
      && |r| <= TopN
      && (forall i, j :: 0 <= i < j < |r| ==> r[i].url != r[j].url)
      && (forall i, j :: 0 <= i < j < |r| ==> BaseTitle(r[i].title) != BaseTitle(r[j].title))
  {
    var r := ProjectAll(records);
    assert forall i :: 0 <= i < |r| ==> Url(records[i]) == r[i].url && BaseKey(records[i]) == BaseTitle(r[i].title);
  }

  /** `get_default_recs`: the top listing shuffled and ranked, no de-duplication or filter.
      Best first, `TopN` of them when the listing is long enough, every record from the listing,
      and none left out that ranks higher than one returned. */
  function DefaultRecords(top: seq<Anime>, draws: seq<nat>): (r: seq<Anime>)
    ensures |r| == if |top| < TopN then |top| else TopN
    ensures SortedByScore(r)
    ensures multiset(r) <= multiset(top)
    ensures forall i, x :: 0 <= i < |r| && x in multiset(top) - multiset(r) ==> ScoreKey(x) <= ScoreKey(r[i])
  {
    Rank(Shuffle(top, draws))
  }

  /** `get_default_recs` as `{title, url}` picks, each the pick of a listed record. */
  function DefaultRecs(top: seq<Anime>, draws: seq<nat>): (r: seq<Pick>)
    ensures |r| == if |top| < TopN then |top| else TopN
    ensures forall i :: 0 <= i < |r| ==> r[i] in ProjectAll(top)
  {
    var records := DefaultRecords(top, draws);
    PicksListed(top, records);
    ProjectAll(records)
  }

  /** Records drawn from `source` project to picks of `source`. */
  lemma PicksListed(source: seq<Anime>, records: seq<Anime>)
    requires multiset(records) <= multiset(source)
    ensures forall i :: 0 <= i < |records| ==> ProjectAll(records)[i] in ProjectAll(source)
  {
    var r := ProjectAll(records);
    var all := ProjectAll(source);
    forall i | 0 <= i < |records|
      ensures r[i] in all
    {
      assert records[i] in multiset(records);
      var j :| 0 <= j < |source| && source[j] == records[i];
      assert all[j] == r[i];
    }
  }

  /** A query that matches no genre and finds nothing in either catalog falls through to the
      top listing, and its recommendations are the default ones for the same draws when the
      listing has no repeated url or base title. */
  lemma NothingFoundFallsBackToTop(tokens: seq<string>, directory: map<string, int>, query: string,
                                   f: Fetched, draws: seq<nat>)
    requires forall t :: t in tokens ==> t !in directory
    requires f.search == [] && f.aniList == []
    requires Parser.Under !in tokens && !(Parser.Hidden in tokens && Parser.Gem in tokens)
    requires DistinctBy(f.top, Url) && DistinctBy(f.top, BaseKey)
    ensures RecommendRecords(tokens, directory, query, f, draws) == DefaultRecords(f.top, draws)
  {
    var intent := ParseUserRequest(tokens, directory);
    assert intent.genres == [];
    var sel := SelectCandidates(intent.genres, directory, query, f);
    assert sel.candidates == f.top;
    DedupeDistinctIsIdentity(f.top, Url);
    DedupeDistinctIsIdentity(f.top, BaseKey);
  }

  /** De-duplicating a list whose keys are already distinct changes nothing. */
  lemma {:induction false} DedupeDistinctIsIdentity<K>(s: seq<Anime>, key: Anime -> K)
    requires DistinctBy(s, key)
    ensures DedupeBy(s, key) == s
  {
    DedupeFromDistinct(s, key, {});
  }

  lemma {:induction false} DedupeFromDistinct<K>(s: seq<Anime>, key: Anime -> K, seen: set<K>)
    requires DistinctBy(s, key)
    requires forall i :: 0 <= i < |s| ==> key(s[i]) !in seen
    ensures DedupeFrom(s, key, seen) == s
    decreases |s|
  {
    if s != [] {
      assert forall i :: 1 <= i < |s| ==> s[1..][i - 1] == s[i];
      DedupeFromDistinct(s[1..], key, seen + {key(s[0])});
      assert s == [s[0]] + s[1..];
    }
  }
}
