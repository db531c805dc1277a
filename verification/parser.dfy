/** The intent parser `parse_user_request`, over the keyword list the language pipeline
    extracted from the query and the genre directory (lower-case genre name to catalog id). */
module Parser {
  import opened Wrappers
  import opened Text
  import opened Seqs

  /** The parsed intent: matched genre names, optional episode ceiling, hidden-gem preference. */
  datatype Intent = Intent(genres: seq<string>, maxEpisodes: Option<nat>, hiddenGem: bool)

  const Under: string := "under"
  const Hidden: string := "hidden"
  const Gem: string := "gem"

  /** `[tok for tok in tokens if tok in directory]`: the tokens that name a genre, in token order. */
  function MatchGenres(tokens: seq<string>, directory: map<string, int>): (r: seq<string>)
    ensures forall t :: t in r <==> t in tokens && t in directory
    ensures forall t :: multiset(r)[t] == if t in directory then multiset(tokens)[t] else 0
    ensures forall i :: 0 <= i < |r| ==> r[i] in directory
    ensures Subseq(r, tokens)
  {
    var r := Filter(tokens, t => t in directory);
    assert forall t :: t in r <==> t in multiset(r);
    r
  }

  /** `tokens.index(w)` when `w` occurs: the position of its first occurrence. */
  function IndexOf(tokens: seq<string>, w: string): (r: Option<nat>)
    ensures r.None? <==> w !in tokens
    ensures r.Some? ==> r.value < |tokens| && tokens[r.value] == w
    ensures r.Some? ==> forall j :: 0 <= j < r.value ==> tokens[j] != w
    decreases |tokens|
  {
    if tokens == [] then None
    else if tokens[0] == w then Some(0)
    else
      match IndexOf(tokens[1..], w)
      case None => None
      case Some(i) => Some(i + 1)
  }

  /** Position `i` holds the first "under" of the token list. */
  ghost predicate FirstUnderAt(tokens: seq<string>, i: int) {
    0 <= i < |tokens| && tokens[i] == Under && forall j :: 0 <= j < i ==> tokens[j] != Under
  }

  /** The "under N" ceiling: read from the token right after the first "under", when that
      token exists and is all digits; absent otherwise. */
  function EpisodeCeiling(tokens: seq<string>): (r: Option<nat>)
    ensures r.Some? <==> exists i :: FirstUnderAt(tokens, i) && i + 1 < |tokens| && IsDigits(tokens[i + 1])
    ensures forall i :: FirstUnderAt(tokens, i) && i + 1 < |tokens| && IsDigits(tokens[i + 1]) ==>
      r == Some(DigitsValue(tokens[i + 1]))
  {
    match IndexOf(tokens, Under)
    case None => None
    case Some(idx) =>
      assert FirstUnderAt(tokens, idx);
      assert forall i :: FirstUnderAt(tokens, i) ==> i == idx;
      if idx + 1 < |tokens| && IsDigits(tokens[idx + 1]) then Some(DigitsValue(tokens[idx + 1])) else None
  }

  /** `parse_user_request`: genres in token order, the "under N" ceiling, and the hidden-gem
      preference, which needs both "hidden" and "gem" anywhere among the tokens. */
  function ParseUserRequest(tokens: seq<string>, directory: map<string, int>): (r: Intent)
    ensures forall t :: t in r.genres <==> t in tokens && t in directory
    ensures forall t :: multiset(r.genres)[t] == if t in directory then multiset(tokens)[t] else 0
    ensures forall i :: 0 <= i < |r.genres| ==> r.genres[i] in directory
    ensures Subseq(r.genres, tokens)
    ensures r.maxEpisodes.Some? <==> exists i :: FirstUnderAt(tokens, i) && i + 1 < |tokens| && IsDigits(tokens[i + 1])
    ensures forall i :: FirstUnderAt(tokens, i) && i + 1 < |tokens| && IsDigits(tokens[i + 1]) ==>
      r.maxEpisodes == Some(DigitsValue(tokens[i + 1]))
    ensures r.hiddenGem <==> Hidden in tokens && Gem in tokens
  {
    Intent(MatchGenres(tokens, directory), EpisodeCeiling(tokens), Hidden in tokens && Gem in tokens)
  }

  /** "romance under 20" with "romance" in the directory: one genre, a ceiling of 20, no
      hidden-gem preference. */
  lemma RomanceUnderTwenty()
    ensures ParseUserRequest(["romance", "under", "20"], map["romance" := 22])
      == Intent(["romance"], Some(20), false)
  {
    RomanceUnderTwentyGenres();
    RomanceUnderTwentyCeiling();
  }

  lemma RomanceUnderTwentyGenres()
    ensures MatchGenres(["romance", "under", "20"], map["romance" := 22]) == ["romance"]
  {
    var g := MatchGenres(["romance", "under", "20"], map["romance" := 22]);
    assert multiset(g) == multiset{"romance"};
    assert |g| == |multiset(g)| == 1;
    assert g[0] in multiset(g);
  }

  lemma RomanceUnderTwentyCeiling()
    ensures EpisodeCeiling(["romance", "under", "20"]) == Some(20)
  {
    assert FirstUnderAt(["romance", "under", "20"], 1);
    assert DigitsValue("20") == 20 by {
      assert "20"[..1] == "2";
      assert "2"[..0] == "";
    }
  }

  /** The ceiling depends on token order: when the digits come before "under", none is set. */
  lemma CeilingNeedsAdjacency()
    ensures EpisodeCeiling(["20", "under"]).None?
    ensures EpisodeCeiling(["under", "short", "20"]).None?
  {
    assert FirstUnderAt(["20", "under"], 1);
    assert FirstUnderAt(["under", "short", "20"], 0);
  }

  /** "action hidden gem": the hidden-gem preference holds however the tokens are ordered. */
  lemma HiddenGemAnyOrder(tokens: seq<string>)
    requires multiset(tokens) == multiset(["gem", "action", "hidden"])
    ensures ParseUserRequest(tokens, map["action" := 1]).hiddenGem
    ensures ParseUserRequest(tokens, map["action" := 1]).maxEpisodes.None?
  {
    assert "gem" in multiset(tokens) && "hidden" in multiset(tokens);
    assert Under !in multiset(tokens);
  }
}
