/** The candidate-source chain of `recommend_anime`: genre fetches when genres matched, else
    the free-text search; then the secondary catalog while the query is non-blank and nothing
    was found; then the top listing while still nothing was found. Each fetch's answer is an
    input: the network calls and caches behind them are not part of this model. */
module Selection {
  import opened Text
  import opened Catalog
  import opened Seqs

  /** One fetch the chain performs. */
  datatype Source = ByGenre(id: int) | Search | AniList | Top

  /** What each fetcher answers for this request: the genre fetch per catalog id, the
      free-text search, the secondary catalog's media list, and the top listing. */
  datatype Fetched = Fetched(byGenre: int -> seq<Anime>, search: seq<Anime>, aniList: seq<Media>, top: seq<Anime>)

  /** The candidates the chain settled on, and the fetches it made, in order. */
  datatype Selection = Selection(candidates: seq<Anime>, consulted: seq<Source>)

  /** The stage of the chain a fetch belongs to: genre fetches first, then the search, the
      secondary catalog and the top listing. */
  function Step(s: Source): nat
  {
    match s
    case ByGenre(_) => 0
    case Search => 1
    case AniList => 2
    case Top => 3
  }

  /** The trace follows the chain's stages: a fetch of a later stage never precedes one of an
      earlier stage, and only genre fetches share a stage, so every other source is fetched
      at most once. */
  predicate InChainOrder(t: seq<Source>)
  {
    forall i, j :: 0 <= i < j < |t| ==> Step(t[i]) < Step(t[j]) || (t[i].ByGenre? && t[j].ByGenre?)
  }

  /** Appending a fetch of a later stage than every fetch so far keeps the trace in order. */
  lemma AppendInChainOrder(t: seq<Source>, s: Source)
    requires InChainOrder(t)
    requires forall i :: 0 <= i < |t| ==> Step(t[i]) < Step(s)
    ensures InChainOrder(t + [s])
  {
  }

  /** Every matched genre's fetch came back empty (vacuously so when none matched). */
  predicate GenreFetchesEmpty(genres: seq<string>, directory: map<string, int>, f: Fetched)
    requires forall i :: 0 <= i < |genres| ==> genres[i] in directory
  {
    forall i :: 0 <= i < |genres| ==> f.byGenre(directory[genres[i]]) == []
  }

  /** The answer of each matched genre's fetch, in genre order. */
  function GenreFetches(genres: seq<string>, directory: map<string, int>, f: Fetched): (r: seq<seq<Anime>>)
    requires forall i :: 0 <= i < |genres| ==> genres[i] in directory
    ensures |r| == |genres|
    ensures forall i :: 0 <= i < |genres| ==> r[i] == f.byGenre(directory[genres[i]])
  {
    seq(|genres|, i requires 0 <= i < |genres| => f.byGenre(directory[genres[i]]))
  }

  /** `for g in genres: candidates += fetch_by_genre(directory[g])`. */
  function GenreCandidates(genres: seq<string>, directory: map<string, int>, f: Fetched): (r: Selection)
    requires forall i :: 0 <= i < |genres| ==> genres[i] in directory
    ensures |r.consulted| == |genres|
    ensures forall i :: 0 <= i < |genres| ==> r.consulted[i] == ByGenre(directory[genres[i]])
    ensures r.candidates == Concat(GenreFetches(genres, directory, f))
    ensures r.candidates == [] <==> GenreFetchesEmpty(genres, directory, f)
    ensures forall i, a :: 0 <= i < |genres| && a in f.byGenre(directory[genres[i]]) ==> a in r.candidates
    ensures forall a :: a in r.candidates ==> exists i :: 0 <= i < |genres| && a in f.byGenre(directory[genres[i]])
    decreases |genres|
  {
    if genres == [] then Selection([], [])
    else
      var rest := GenreCandidates(genres[1..], directory, f);
      var here := f.byGenre(directory[genres[0]]);
      assert forall i :: 1 <= i < |genres| ==> genres[i] == genres[1..][i - 1];
      assert GenreFetches(genres, directory, f)[1..] == GenreFetches(genres[1..], directory, f);
      Selection(here + rest.candidates, [ByGenre(directory[genres[0]])] + rest.consulted)
  }

  /** The secondary catalog's answer mapped to catalog records. */
  function AniListResults(media: seq<Media>): (r: seq<Anime>)
    ensures |r| == |media|
    ensures forall i :: 0 <= i < |r| ==> r[i] == FromAniList(media[i])
  {
    seq(|media|, i requires 0 <= i < |media| => FromAniList(media[i]))
  }

  /** `not query.strip()`. */
  function QueryBlank(query: string): (b: bool)
    ensures b <==> IsBlank(query)
  {
    Strip(query) == []
  }

  /** First stage: the genre fetches when a genre matched, else the free-text search for a
      non-blank query, else nothing. */
  function FirstStage(genres: seq<string>, directory: map<string, int>, query: string, f: Fetched): (r: Selection)
    requires forall i :: 0 <= i < |genres| ==> genres[i] in directory
    ensures |genres| <= |r.consulted|
    ensures forall i :: 0 <= i < |genres| ==> r.consulted[i] == ByGenre(directory[genres[i]])
    ensures forall i :: |genres| <= i < |r.consulted| ==> !r.consulted[i].ByGenre?
    ensures |r.consulted| <= |genres| + 1
    ensures InChainOrder(r.consulted)
    ensures Search in r.consulted <==> genres == [] && !IsBlank(query)
    ensures AniList !in r.consulted && Top !in r.consulted
    ensures r.candidates == [] <==>
      && GenreFetchesEmpty(genres, directory, f)
      && (genres == [] && !IsBlank(query) ==> f.search == [])
    ensures Search in r.consulted ==> r.candidates == f.search
    ensures genres != [] ==> r.candidates == GenreCandidates(genres, directory, f).candidates
  {
    if genres != [] then
      var g := GenreCandidates(genres, directory, f);
      assert forall i :: 0 <= i < |g.consulted| ==> g.consulted[i].ByGenre?;
      g
    else if !QueryBlank(query) then Selection(f.search, [Search])
    else Selection([], [])
  }

  /** Second stage: the secondary catalog, for a non-blank query that found nothing so far. */
  function AniListStage(prev: Selection, query: string, f: Fetched): (r: Selection)
    ensures AniList in r.consulted <==> AniList in prev.consulted || (prev.candidates == [] && !IsBlank(query))
    ensures prev.consulted <= r.consulted
    ensures forall s :: s != AniList ==> (s in r.consulted <==> s in prev.consulted)
    ensures forall i :: |prev.consulted| <= i < |r.consulted| ==> !r.consulted[i].ByGenre?
    ensures |r.consulted| <= |prev.consulted| + 1
    ensures InChainOrder(prev.consulted) && AniList !in prev.consulted && Top !in prev.consulted ==>
      InChainOrder(r.consulted)
    ensures r.candidates == if prev.candidates == [] && !IsBlank(query) then AniListResults(f.aniList) else prev.candidates
  {
    if prev.candidates == [] && !QueryBlank(query) then
      var t := prev.consulted;
      if InChainOrder(t) && AniList !in t && Top !in t then
        assert forall i :: 0 <= i < |t| ==> t[i] in t;
        AppendInChainOrder(t, AniList);
        Selection(AniListResults(f.aniList), t + [AniList])
      else Selection(AniListResults(f.aniList), t + [AniList])
    else prev
  }

  /** Last stage: the top listing, when the candidates are still empty. */
  function TopStage(prev: Selection, f: Fetched): (r: Selection)
    ensures Top in r.consulted <==> Top in prev.consulted || prev.candidates == []
    ensures prev.consulted <= r.consulted
    ensures forall s :: s != Top ==> (s in r.consulted <==> s in prev.consulted)
    ensures forall i :: |prev.consulted| <= i < |r.consulted| ==> !r.consulted[i].ByGenre?
    ensures |r.consulted| <= |prev.consulted| + 1
    ensures InChainOrder(prev.consulted) && Top !in prev.consulted ==> InChainOrder(r.consulted)
    ensures prev.candidates == [] ==> r.candidates == f.top && r.consulted[|r.consulted| - 1] == Top
    ensures prev.candidates != [] ==> r == prev
  {
    if prev.candidates == [] then
      var t := prev.consulted;
      if InChainOrder(t) && Top !in t then
        assert forall i :: 0 <= i < |t| ==> t[i] in t;
        AppendInChainOrder(t, Top);
        Selection(f.top, t + [Top])
      else Selection(f.top, t + [Top])
    else prev
  }

  /** The fallback chain, as `recommend_anime` runs it before de-duplication. */
  function SelectCandidates(genres: seq<string>, directory: map<string, int>, query: string, f: Fetched): (r: Selection)
    requires forall i :: 0 <= i < |genres| ==> genres[i] in directory
    // the genre fetches, one per matched genre, come first and in genre order
    ensures |genres| <= |r.consulted|
    ensures forall i :: 0 <= i < |genres| ==> r.consulted[i] == ByGenre(directory[genres[i]])
    // and no other genre fetch is made
    ensures forall i :: |genres| <= i < |r.consulted| ==> !r.consulted[i].ByGenre?
    // the other sources follow in chain order, each fetched at most once
    ensures InChainOrder(r.consulted)
    // search only when no genre matched and the query is not blank
    ensures Search in r.consulted <==> genres == [] && !IsBlank(query)
    // the secondary catalog only for a non-blank query that found nothing so far
    ensures AniList in r.consulted <==>
      && !IsBlank(query)
      && GenreFetchesEmpty(genres, directory, f)
      && (genres == [] ==> f.search == [])
    // the top listing only when every earlier source left the candidates empty
    ensures Top in r.consulted <==>
      && GenreFetchesEmpty(genres, directory, f)
      && (genres == [] && !IsBlank(query) ==> f.search == [])
      && (!IsBlank(query) ==> f.aniList == [])
    // the candidates are the answer of the last source consulted
    ensures Top in r.consulted ==> r.candidates == f.top && r.consulted[|r.consulted| - 1] == Top
    ensures AniList in r.consulted && Top !in r.consulted ==> r.candidates == AniListResults(f.aniList)
    ensures Search in r.consulted && AniList !in r.consulted ==> r.candidates == f.search
    ensures genres != [] && AniList !in r.consulted && Top !in r.consulted ==>
      r.candidates == GenreCandidates(genres, directory, f).candidates
    ensures r.candidates == [] ==> Top in r.consulted && f.top == []
  {
    var first := FirstStage(genres, directory, query, f);
    var second := AniListStage(first, query, f);
    var r := TopStage(second, f);
    ChainFacts(genres, directory, query, f, first, second, r);
    ChainGenres(genres, directory, query, f);
    ChainOrder(genres, directory, query, f);
    r
  }

  lemma ChainFacts(genres: seq<string>, directory: map<string, int>, query: string, f: Fetched,
                   first: Selection, second: Selection, r: Selection)
    requires forall i :: 0 <= i < |genres| ==> genres[i] in directory
    requires first == FirstStage(genres, directory, query, f)
    requires second == AniListStage(first, query, f)
    requires r == TopStage(second, f)
    ensures Search in r.consulted <==> genres == [] && !IsBlank(query)
    ensures AniList in r.consulted <==>
      && !IsBlank(query)
      && GenreFetchesEmpty(genres, directory, f)
      && (genres == [] ==> f.search == [])
    ensures Top in r.consulted <==>
      && GenreFetchesEmpty(genres, directory, f)
      && (genres == [] && !IsBlank(query) ==> f.search == [])
      && (!IsBlank(query) ==> f.aniList == [])
    ensures Top in r.consulted ==> r.candidates == f.top && r.consulted[|r.consulted| - 1] == Top
    ensures AniList in r.consulted && Top !in r.consulted ==> r.candidates == AniListResults(f.aniList)
    ensures Search in r.consulted && AniList !in r.consulted ==> r.candidates == f.search
    ensures genres != [] && AniList !in r.consulted && Top !in r.consulted ==>
      r.candidates == GenreCandidates(genres, directory, f).candidates
    ensures r.candidates == [] ==> Top in r.consulted && f.top == []
  {
    assert |AniListResults(f.aniList)| == |f.aniList|;
  }

  /** The later stages only append fetches other than genre fetches, so the trace keeps the
      genre fetches of the first stage as its prefix and has no others. */
  lemma ChainTrace(genres: seq<string>, directory: map<string, int>, first: seq<Source>, r: seq<Source>)
    requires forall i :: 0 <= i < |genres| ==> genres[i] in directory
    requires |genres| <= |first|
    requires forall i :: 0 <= i < |genres| ==> first[i] == ByGenre(directory[genres[i]])
    requires forall i :: |genres| <= i < |first| ==> !first[i].ByGenre?
    requires first <= r
    requires forall i :: |first| <= i < |r| ==> !r[i].ByGenre?
    ensures |genres| <= |r|
    ensures forall i :: 0 <= i < |genres| ==> r[i] == ByGenre(directory[genres[i]])
    ensures forall i :: |genres| <= i < |r| ==> !r[i].ByGenre?
  {
    assert forall i :: 0 <= i < |first| ==> r[i] == first[i];
  }

  /** The genre fetches of the first stage are the only ones in the chain's trace. */
  lemma ChainGenres(genres: seq<string>, directory: map<string, int>, query: string, f: Fetched)
    requires forall i :: 0 <= i < |genres| ==> genres[i] in directory
    ensures var t := TopStage(AniListStage(FirstStage(genres, directory, query, f), query, f), f).consulted;
      && |genres| <= |t|
      && (forall i :: 0 <= i < |genres| ==> t[i] == ByGenre(directory[genres[i]]))
      && (forall i :: |genres| <= i < |t| ==> !t[i].ByGenre?)
  {
    var first := FirstStage(genres, directory, query, f);
    var second := AniListStage(first, query, f);
    ChainTrace(genres, directory, first.consulted, second.consulted);
    ChainTrace(genres, directory, first.consulted, TopStage(second, f).consulted);
  }

  /** The chain's trace stays in order: the first stage fetches neither the secondary catalog
      nor the top listing, the second stage appends at most the former, and the last stage at
      most the latter. */
  lemma ChainOrder(genres: seq<string>, directory: map<string, int>, query: string, f: Fetched)
    requires forall i :: 0 <= i < |genres| ==> genres[i] in directory
    ensures InChainOrder(TopStage(AniListStage(FirstStage(genres, directory, query, f), query, f), f).consulted)
  {
    var first := FirstStage(genres, directory, query, f);
    var second := AniListStage(first, query, f);
    assert InChainOrder(second.consulted);
    assert Top !in second.consulted;
  }

  /** With no genre matched and a query that finds nothing in either catalog, the chain
      fetches the search, the secondary catalog and the top listing, once each and in
      that order, and settles on the top listing. */
  lemma NothingFoundTrace(directory: map<string, int>, f: Fetched)
    requires f.search == [] && f.aniList == []
    ensures SelectCandidates([], directory, "a", f) == Selection(f.top, [Search, AniList, Top])
  {
    var query: string := "a";
    assert !IsSpace(query[0]);
    assert !IsBlank(query);
    var first := FirstStage([], directory, query, f);
    assert first == Selection([], [Search]);
    assert AniListStage(first, query, f) == Selection([], [Search, AniList]);
  }
}
