/** Catalog records and the per-record notions the recommender uses: the normalised base
    title, the ranking key, the two filter tests and the secondary-catalog (AniList) mapping. */
module Catalog {
  import opened Wrappers
  import opened Text

  /** A raw catalog record, from the primary catalog, the secondary catalog or the cache:
      title, page url, optional episode count and optional score on a 0–10 scale. */
  datatype Anime = Anime(title: string, url: string, episodes: Option<int>, score: Option<real>)

  /** One returned recommendation, `{"title": …, "url": …}`. */
  datatype Pick = Pick(title: string, url: string)

  /** One `media` item of the secondary catalog's GraphQL answer. */
  datatype Media = Media(romaji: string, siteUrl: string, averageScore: Option<int>, episodes: Option<int>)

  /** Number of recommendations returned. */
  const TopN: nat := 10

  /** Scores strictly below this make a "hidden gem". */
  const HiddenGemCeiling: real := 7.0

  function Url(a: Anime): string {
    a.url
  }

  function Project(a: Anime): Pick {
    Pick(a.title, a.url)
  }

  /** `[{"title": a["title"], "url": a["url"]} for a in records]`. */
  function ProjectAll(records: seq<Anime>): (r: seq<Pick>)
    ensures |r| == |records|
    ensures forall i :: 0 <= i < |r| ==> r[i].title == records[i].title && r[i].url == records[i].url
  {
    seq(|records|, i requires 0 <= i < |records| => Project(records[i]))
  }

  /** The normalised base title `title.split(":")[0].split("-")[0].strip().lower()`: sequels
      and seasons such as "Title: Season 2" or "Title - Movie" share the base "title". */
  function BaseTitle(title: string): (r: string)
    ensures ':' !in r && '-' !in r
    ensures r != [] ==> !IsSpace(r[0]) && !IsSpace(r[|r| - 1])
    ensures forall i :: 0 <= i < |r| ==> !IsUpper(r[i])
    ensures ':' !in title && '-' !in title ==> r == Lower(Strip(title))
    ensures ':' !in title && '-' !in title && (title == [] || (!IsSpace(title[0]) && !IsSpace(title[|title| - 1]))) ==>
      r == Lower(title)
  {
    var stripped := Strip(BeforeFirst(BeforeFirst(title, ':'), '-'));
    BaseTitleParts(title, stripped);
    if ':' in title || '-' in title then Lower(stripped)
    else
      CutOfClean(title);
      StripTrimmed(title);
      Lower(stripped)
  }

  /** Cutting at the separators leaves a title without separators alone. */
  lemma CutOfClean(title: string)
    requires ':' !in title && '-' !in title
    ensures BeforeFirst(BeforeFirst(title, ':'), '-') == title
  {
    BeforeFirstAbsent(title, ':');
    BeforeFirstAbsent(title, '-');
  }

  lemma BaseTitleParts(title: string, stripped: string)
    requires stripped == Strip(BeforeFirst(BeforeFirst(title, ':'), '-'))
    ensures var r := Lower(stripped);
      && ':' !in r && '-' !in r
      && (r != [] ==> !IsSpace(r[0]) && !IsSpace(r[|r| - 1]))
  {
    var cut := BeforeFirst(BeforeFirst(title, ':'), '-');
    assert ':' !in cut;
    StripAvoids(cut, ':');
    StripAvoids(cut, '-');
    LowerAvoids(stripped, ':');
    LowerAvoids(stripped, '-');
    LowerKeepsSpaces(stripped);
  }

  function BaseKey(a: Anime): string {
    BaseTitle(a.title)
  }

  /** A base title is its own base title. */
  lemma BaseTitleIdempotent(title: string)
    ensures BaseTitle(BaseTitle(title)) == BaseTitle(title)
  {
    var b := BaseTitle(title);
    BeforeFirstAbsent(b, ':');
    BeforeFirstAbsent(b, '-');
    StripTrimmed(b);
    LowerLowercase(b);
  }

  /** A title and its "title: …" or "title - …" variant have the same base title, so the
      second de-duplication pass keeps only one of them. */
  lemma {:induction false} VariantSharesBaseTitle(title: string, sep: char, rest: string)
    requires sep == ':' || sep == '-'
    requires ':' !in title && '-' !in title
    ensures BaseTitle(title + [sep] + rest) == BaseTitle(title)
  {
    var full := title + [sep] + rest;
    assert full == title + ([sep] + rest);
    BeforeFirstAppend(title, [sep] + rest, ':');
    BeforeFirstAppend(title, [], ':');
    assert title + [] == title;
    var c := BeforeFirst(full, ':');
    if sep == ':' {
      assert c == title;
    } else {
      assert c == title + BeforeFirst([sep] + rest, ':');
      var tail := BeforeFirst([sep] + rest, ':');
      assert tail == [sep] + BeforeFirst(rest, ':');
      assert c == title + ([sep] + BeforeFirst(rest, ':'));
      BeforeFirstAppend(title, [sep] + BeforeFirst(rest, ':'), '-');
    }
    BeforeFirstAppend(title, [], '-');
  }

  /** The ranking key `a.get("score") or 0`: a missing or zero score counts as 0. */
  function ScoreKey(a: Anime): (k: real)
    ensures k == a.score.GetOr(0.0)
  {
    if a.score.Some? && a.score.value != 0.0 then a.score.value else 0.0
  }

  /** The episode test `a.get("episodes") and a["episodes"] <= n`: a known, non-zero
      episode count within the ceiling. */
  function EpisodesWithin(a: Anime, n: int): (b: bool)
    ensures b <==> a.episodes.GetOr(0) != 0 && a.episodes.GetOr(0) <= n
  {
    a.episodes.Some? && a.episodes.value != 0 && a.episodes.value <= n
  }

  /** The hidden-gem test `a.get("score") and a["score"] < 7`: a known, non-zero score
      below the ceiling. */
  function HiddenGemScore(a: Anime): (b: bool)
    ensures b <==> ScoreKey(a) != 0.0 && ScoreKey(a) < HiddenGemCeiling
  {
    a.score.Some? && a.score.value != 0.0 && a.score.value < HiddenGemCeiling
  }

  /** The secondary catalog's record mapping: romaji title, site url, episode count, and the
      0–100 average score rescaled to 0–10 when the catalog reports one. */
  function FromAniList(m: Media): (a: Anime)
    ensures a.title == m.romaji && a.url == m.siteUrl && a.episodes == m.episodes
    ensures a.score.None? <==> m.averageScore.None?
    ensures a.score.Some? ==> a.score.value * 10.0 == m.averageScore.value as real
  {
    // `m.get("averageScore") and m["averageScore"] / 10` yields None for a missing score
    // and the number itself (0) for a zero score, which `/ 10` also gives.
    var score := match m.averageScore
      case None => None
      case Some(v) => Some(v as real / 10.0);
    Anime(m.romaji, m.siteUrl, m.episodes, score)
  }

  /** Downstream, a mapped record ranks by a tenth of its average score (0 when absent) and is
      a hidden gem exactly when that average score is known, non-zero and below 70. */
  lemma FromAniListRanking(m: Media)
    ensures ScoreKey(FromAniList(m)) * 10.0 == m.averageScore.GetOr(0) as real
    ensures HiddenGemScore(FromAniList(m)) <==> m.averageScore.Some? && 0 != m.averageScore.value < 70
  {
  }
}
