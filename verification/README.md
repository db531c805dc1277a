# OtakuOracle recommender core in Dafny

This project models the recommendation pipeline of OtakuOracle (`recommender.py`): the
intent parser `parse_user_request`, the candidate-source fallback chain of `recommend_anime`
(genre fetches, else free-text search, then the secondary AniList catalog, then the top
listing), the AniList record mapping, the two de-duplication passes (exact url, then
normalised base title), the episode-ceiling and hidden-gem filters, the shuffle, the stable
descending sort by score, the cut to ten, and the projection to `{title, url}` picks; and the
same ranking tail in `get_default_recs`.

Everything the pipeline gets from the outside is a parameter:

- the keyword list the spaCy pipeline extracts from the query is an arbitrary `seq<string>`;
- the genre directory is a `map<string, int>` from lower-case genre name to catalog id;
- the four fetchers' answers are a `Fetched` value: the genre fetch as a function of the
  catalog id, and the search, AniList and top-listing answers as sequences;
- `random.shuffle` is CPython's Fisher–Yates pass driven by a caller-supplied list of draws,
  so every property of the result holds for every shuffle outcome.

Modules: `Wrappers` (Option), `Seqs` (order-preserving sub-sequences, distinctness by key,
filtering, first-occurrence de-duplication), `Text` (`strip`, `split(c)[0]`, `lower`,
`isdigit`, `int`), `Catalog` (the record type, base title, ranking key, filter tests,
AniList mapping), `Parser`, `Selection`, `Shuffling`, `Ranking`, `Recommender`.

Two behaviours of the code worth spelling out:

- The code never checks that a title or url is non-empty, so the model promises neither.
- The AniList mapping `m.get("averageScore") and m["averageScore"]/10` gives `None` only for
  a missing score; a zero average score becomes score 0, not an absent score.
  `Catalog.FromAniListRanking` shows that the ranking key and the hidden-gem test treat the
  two alike.

The "under N" ceiling is read from the token right after the first "under" in the keyword
list. The keyword list is built from a set, so its order need not follow the sentence.
`Parser.CeilingNeedsAdjacency` shows that the ceiling depends on that order.

## Model

| member | source | states |
|---|---|---|
| Parser.MatchGenres | recommender.py:37 | the matched genres are exactly the tokens that are directory keys, kept in token order (order-preserving sub-sequence) |
| Parser.IndexOf | recommender.py:40-41 | `tokens.index(w)`: absent exactly when `w` is not a token; otherwise the position of the first occurrence |
| Parser.EpisodeCeiling | recommender.py:39-43 | a ceiling is set iff the token after the first "under" exists and is all digits, and then it is that token read as a number |
| Parser.ParseUserRequest | recommender.py:34-46 | the parsed intent: the genres are exactly the directory tokens, each as often as among the tokens, in token order; the "under N" ceiling as above; hidden-gem preference iff both "hidden" and "gem" are tokens |
| Parser.RomanceUnderTwenty | recommender.py:34-46 | "romance under 20" with romance a known genre parses to genres ["romance"], ceiling 20, no hidden-gem preference |
| Parser.CeilingNeedsAdjacency | recommender.py:39-43 | no ceiling when the digits precede "under" or do not follow it directly |
| Parser.HiddenGemAnyOrder | recommender.py:45 | "action hidden gem" sets the hidden-gem preference in every token order, with no ceiling |
| Text.Strip | recommender.py:157 | `strip()` removes exactly the leading and trailing Python whitespace: the result is a slice of the input bounded by whitespace only, empty iff the input is blank |
| Text.StripTrimmed | recommender.py:157 | text with no whitespace at either end is unchanged by `strip()` |
| Text.BeforeFirst | recommender.py:157 | `split(c)[0]` is the longest prefix without `c`: it holds no `c` and is followed by `c` or the end |
| Text.BeforeFirstAppend | recommender.py:157 | cutting at `c` passes over a prefix that holds no `c` |
| Text.Lower | recommender.py:158 | `lower()` has no upper-case letter, keeps the length and every non-letter, and shifts each upper-case letter to its lower-case form |
| Text.IsDigits | recommender.py:42 | `isdigit()` is false for the empty string and true exactly when every character is a digit |
| Text.DigitsValue | recommender.py:43 | `int()` of an n-digit string is below 10^n |
| Text.DigitsValueShowNat | recommender.py:43 | reading back the decimal rendering of a number gives the number |
| Text.DigitsValueLeadingZero | recommender.py:43 | a leading zero does not change the number read |
| Catalog.BaseTitle | recommender.py:157-158 | the base title has no colon or hyphen, no whitespace at either end and no upper-case letter; for a title without colon or hyphen it is the stripped, lower-cased title, and for a trimmed one the lower-cased title |
| Catalog.CutOfClean | recommender.py:157 | cutting at colon and hyphen leaves a title holding neither unchanged |
| Catalog.BaseTitleIdempotent | recommender.py:157-158 | normalising a base title again changes nothing |
| Catalog.VariantSharesBaseTitle | recommender.py:154-159 | "T: …" and "T - …" variants share the base title of T |
| Catalog.ScoreKey | recommender.py:169 | the ranking key `score or 0` is the score when present, 0 when absent (a zero score gives 0 either way) |
| Catalog.EpisodesWithin | recommender.py:163 | the episode test holds iff the episode count, 0 when absent, is non-zero and at most the ceiling |
| Catalog.HiddenGemScore | recommender.py:166 | the hidden-gem test holds iff the ranking key is non-zero and below 7 |
| Catalog.FromAniList | recommender.py:125-129 | the AniList mapping keeps title, url and episodes; the score is absent iff the average score is, else a tenth of it |
| Catalog.FromAniListRanking | recommender.py:127 | a mapped record ranks by a tenth of its average score (0 when absent) and is a hidden gem iff that score is known, non-zero and below 70 |
| Catalog.ProjectAll | recommender.py:170 | the projection keeps length, order, titles and urls |
| Selection.GenreCandidates | recommender.py:138-141 | one genre fetch per matched genre, in genre order; the candidates are the fetch answers concatenated in genre order (repeats kept), empty iff every fetch was |
| Selection.QueryBlank | recommender.py:142 | `not query.strip()` holds exactly when the query is all whitespace |
| Selection.AniListResults | recommender.py:125-129 | the secondary catalog's answer mapped record by record, in order |
| Selection.FirstStage | recommender.py:138-143 | genre fetches in genre order when a genre matched and no other genre fetch, else the search exactly for a non-blank query; no other source, at most one fetch besides the genre fetches, and the trace in chain order; nothing found iff every consulted source answered nothing |
| Selection.AniListStage | recommender.py:144-145 | the AniList catalog is consulted, and replaces the candidates, exactly when nothing was found and the query is non-blank, appended once after the earlier fetches; at most one fetch is added, and a trace in chain order without AniList or top fetch stays in chain order; nothing else changes |
| Selection.TopStage | recommender.py:146-147 | the top listing is consulted last, and becomes the candidates, exactly when nothing was found; at most one fetch is added, and a trace in chain order without a top fetch stays in chain order; otherwise the selection is unchanged |
| Selection.ChainTrace | recommender.py:138-147 | the later stages append no genre fetch, so the trace's genre fetches are exactly the first stage's |
| Selection.ChainGenres | recommender.py:137-147 | the whole chain's trace starts with one genre fetch per matched genre and holds no other |
| Selection.ChainOrder | recommender.py:142-147 | the whole chain's trace is in chain order: genre fetches, then search, AniList and the top listing, each at most once |
| Selection.NothingFoundTrace | recommender.py:142-147 | no genre, query "a", empty search and AniList answers: the trace is exactly search, AniList, top, and the candidates are the top listing |
| Selection.SelectCandidates | recommender.py:137-147 | one genre fetch per matched genre, first and in genre order, and no other; the rest of the trace in chain order, search before AniList before the top listing, each fetched at most once; search only when no genre matched and the query is non-blank; AniList only for a non-blank query with nothing found so far; top listing only when every earlier source left the list empty; the candidates are the last consulted source's answer |
| Seqs.Filter | recommender.py:163 | a comprehension keeps every element that passes, with its multiplicity, drops the rest, and keeps their order |
| Seqs.DedupeFrom | recommender.py:149-152 | the seen-set loop yields elements with pairwise distinct keys, none of them already seen, as an order-preserving sub-sequence of the input |
| Seqs.DedupeFromKeepsFirst | recommender.py:149-152 | the first element with a key not yet seen is appended |
| Seqs.DedupeFromKeys | recommender.py:149-152 | every key of the input is either already seen or the key of an element kept |
| Seqs.DedupeBy | recommender.py:149-153 | first-occurrence de-duplication: pairwise distinct keys, an order-preserving sub-sequence, the first element of each key kept, no key lost, and only first occurrences kept, ordered by their first positions |
| Seqs.DedupeFromOrder | recommender.py:149-152 | the seen-set loop keeps only first occurrences, ordered by the first position of their keys |
| Seqs.DedupeByRepeat | recommender.py:149-152 | `[x, y, x]` de-duplicates to `[x, y]` |
| Seqs.FirstIndex | recommender.py:149-152 | the first position of a key: it carries the key and no earlier position does |
| Seqs.SubseqKeeps | recommender.py:148-166 | a property every candidate has survives every later pass that only drops candidates |
| Seqs.SubseqMultiset | recommender.py:155-160 | an order-preserving sub-sequence holds no element more often than its source |
| Seqs.DistinctBySubMultiset | recommender.py:155-170 | distinct urls or base titles stay distinct in any sub-sequence or permutation |
| Recommender.DedupePasses | recommender.py:148-160 | after both passes no two candidates share a url or a base title and candidate order is kept; every survivor is the first record of its url; the base title of every first-by-url record is kept; a record first both by url and by base title survives |
| Recommender.PassesKeepOnlyFirsts | recommender.py:148-160 | only the first record of each url survives both passes |
| Recommender.PassesKeepBaseTitles | recommender.py:154-160 | the base title of every record first by url survives the second pass |
| Recommender.PassesKeepDoubleFirsts | recommender.py:148-160 | a record first both by url and by base title survives both passes |
| Recommender.UrlFirstIsBaseFirst | recommender.py:149-159 | a record first both by url and by base title is still first by base title after the url pass |
| Recommender.SeasonDropped | recommender.py:154-160 | "Title" followed by "Title: Season 2" at another url: the passes keep only "Title" |
| Recommender.SameBaseDropped | recommender.py:154-160 | of two records with different urls and one base title, only the first survives |
| Recommender.EpisodeFilter | recommender.py:162-163 | with a ceiling N, exactly the candidates with a known non-zero episode count at most N survive, each as often as in the input, in order; without one nothing changes |
| Recommender.HiddenGemFilter | recommender.py:165-166 | under the hidden-gem preference, exactly the candidates with a known non-zero score below 7 survive, each as often as in the input, in order; otherwise nothing changes |
| Recommender.Prepare | recommender.py:148-166 | the prepared list has distinct urls and base titles, is an order-preserving sub-sequence of the candidates, and meets the ceiling and the hidden-gem test when set |
| Shuffling.ShuffleDown | recommender.py:168 | each Fisher–Yates step sequence yields a permutation of its input |
| Shuffling.Shuffle | recommender.py:168 | every shuffle outcome, for every draw sequence, is a permutation of the input |
| Shuffling.ShuffleDownNoDraws | recommender.py:168 | without draws no element moves |
| Ranking.Insert | recommender.py:169 | inserting into a sorted list keeps it sorted and adds exactly the one record |
| Ranking.InsertStable | recommender.py:169 | the inserted record goes ahead of the records with its key, and their order is unchanged |
| Ranking.SortByScore | recommender.py:169 | the sort yields a permutation that is non-increasing by score, missing or zero scores counted as 0 |
| Ranking.SortByScoreStable | recommender.py:169 | records of equal score keep their input order (Python's sort stays stable with `reverse=True`) |
| Ranking.HeadsAgree | recommender.py:169 | two sorted lists holding the same records in the same order per score start with the same record |
| Ranking.StableSortUnique | recommender.py:169 | two sorted lists that agree score by score on record order are equal, so the sort is exactly the stable reverse sort |
| Ranking.TopOfSorted | recommender.py:169 | a prefix of a sorted list is sorted and outranks every record after it |
| Ranking.Rank | recommender.py:169 | `[:10]` of the stable sort: min(10, n) records, sorted, drawn from the input, none left out ranking above one kept, and the records of each score are the first ones of that score in input order |
| Ranking.TopKeepsTies | recommender.py:169 | cutting the stable sort keeps, for each score, a prefix of that score's records in input order |
| Ranking.WithKeyAppend | recommender.py:169 | the records of one score in a concatenation are those of each part, in order |
| Recommender.RankedFromPrepared | recommender.py:168-170 | the ranked records keep distinct urls and base titles and are a sub-multiset of the prepared candidates |
| Recommender.RecommendRecords | recommender.py:135-170 | for every shuffle: at most 10 records, sorted by score, no shared url or base title, ceiling and hidden-gem test honoured, a sub-multiset of the records left after de-duplication and filtering, none of those left out ranking above one returned |
| Recommender.RankedMembers | recommender.py:168-170 | records drawn from the prepared list are prepared records and selected candidates |
| Recommender.RankedPicks | recommender.py:170 | the picks of ranked records are at most 10, distinct by url and base title, each the pick of a prepared record |
| Recommender.RecommendAnime | recommender.py:135-170 | at most 10 picks, no two with the same url or the same base title, each the pick of a record left after de-duplication and filtering |
| Recommender.DefaultRecords | recommender.py:173-176 | the default ranking: min(10, n) top-listing records, sorted, none left out ranking above one returned |
| Recommender.DefaultRecs | recommender.py:173-177 | `get_default_recs` returns min(10, n) picks, each the pick of a listed record |
| Recommender.PicksListed | recommender.py:170 | records drawn from a list project to picks of that list |
| Recommender.NothingFoundFallsBackToTop | recommender.py:144-147 | a query with no genre, no search or AniList hit, no ceiling and no hidden-gem preference gets the default recommendations (top listing without repeated urls or base titles) |
| Recommender.DedupeDistinctIsIdentity | recommender.py:149-160 | de-duplicating a list whose keys are already distinct changes nothing |

## Left out

- HTTP fetchers (`fetch_mal_genres`, `fetch_by_genre`, `fetch_search_mal`, `fetch_top_anime`, the request of `fetch_anilist`), their page counts, one-second sleeps and raised HTTP errors: network I/O; their answers are inputs.
- The genre directory fetched at start-up: network I/O; it is an input map.
- spaCy keyword extraction (`extract_keywords`): a foreign NLP library; the keyword list is an input.
- JSON cache load and save and the cache-key lookups: file-system I/O; a cached answer is just another input sequence.
- `random.shuffle`'s random number source: randomness; the draws are a parameter (a draw outside [0, i] is reduced modulo i + 1, and missing draws leave elements in place).
- Floating point: scores are exact `real`s, so `/ 10` and `< 7` are exact.
- KeyError on records missing `title` or `url`: records are typed, so every record has both fields.
- Text.Lower: folds only ASCII letters; Python's `lower()` also folds other Unicode letters.
- Text.IsDigits: accepts only ASCII digits; Python's `isdigit()` also accepts other Unicode digits (for some of which `int()` then raises).
- Recommender.Prepare: states soundness and order but not which records survive; `Seqs.DedupeBy`, `Recommender.EpisodeFilter` and `Recommender.HiddenGemFilter` state that per pass.
- Recommender.DefaultRecs: states the count and provenance of the picks only; ordering and dominance are stated on `Recommender.DefaultRecords`, whose records it projects (the picks keep no score to state them on).
- Recommender.RecommendAnime: states distinctness and provenance of the picks only; ordering and filters are stated on `Recommender.RecommendRecords`, whose records it projects (the projection keeps no score or episode count to state them on).
- Recommender.DedupePasses: when several first-by-url records share a base title, its contract says one of them survives but not that it is the earliest; `Seqs.DedupeBy` pins each pass exactly.
- main.py: the Streamlit form, session state and buttons.
