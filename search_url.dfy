/**
 * The search-results URL of the job board (`make_url`): the tag list and
 * the country list are comma-joined and spliced, with the day count, into
 * a fixed query string. Nothing is escaped or percent-encoded.
 */
module SearchUrl {
  import opened Wrappers
  import opened Text

  /** The filter a search URL carries. */
  datatype SearchFilter = SearchFilter(countries: seq<string>, tags: seq<string>, postedSince: int)

  const Base := "https://www.workingnomads.com/jobs?tag="
  const LocationKey := "location="
  const PostedKey := "postedDate="

  /** `make_url(countries, tags, posted_since)`. */
  function MakeUrl(countries: seq<string>, tags: seq<string>, postedSince: int): (url: string)
    ensures |Base| <= |url| && url[..|Base|] == Base
  {
    Base + Join(tags, ',') + "&" + LocationKey + Join(countries, ',') + "&" + PostedKey + IntToString(postedSince)
  }

  /**
   * Reads a search URL back into its filter, as the site would: the query
   * after the fixed prefix must have exactly three `&`-separated
   * parameters, the tag value, `location=` and `postedDate=` with an integer.
   */
  function ParseUrl(url: string): (r: Option<SearchFilter>)
  {
    if |url| < |Base| || url[..|Base|] != Base then None
    else
      var params := Split(url[|Base|..], '&');
      if |params| != 3 || |params[1]| < |LocationKey| || params[1][..|LocationKey|] != LocationKey
         || |params[2]| < |PostedKey| || params[2][..|PostedKey|] != PostedKey then None
      else
        match ParseInt(params[2][|PostedKey|..])
        case None => None
        case Some(days) =>
          Some(SearchFilter(Split(params[1][|LocationKey|..], ','), Split(params[0], ','), days))
  }

  /** A token list the URL can carry unambiguously: non-empty, no `,` and no `&` in any token. */
  predicate Carried(tokens: seq<string>)
  {
    |tokens| >= 1 && Free(tokens, ',') && Free(tokens, '&')
  }

  /**
   * The URL built from a filter reads back as that filter, provided both
   * token lists are non-empty and free of the two separators.
   */
  lemma MakeUrlRoundTrip(countries: seq<string>, tags: seq<string>, postedSince: int)
    requires Carried(countries) && Carried(tags)
    ensures ParseUrl(MakeUrl(countries, tags, postedSince)) == Some(SearchFilter(countries, tags, postedSince))
  {
    var t, c, d := Join(tags, ','), Join(countries, ','), IntToString(postedSince);
    var url := MakeUrl(countries, tags, postedSince);
    assert '&' !in t && '&' !in c && '&' !in d by {
      JoinFree(tags, ',', '&');
      JoinFree(countries, ',', '&');
      IntToStringRoundTrip(postedSince);
      assert forall i :: 0 <= i < |d| ==> d[i] != '&';
    }
    var location, posted := LocationKey + c, PostedKey + d;
    assert '&' !in location && '&' !in posted by {
      assert forall i :: 0 <= i < |LocationKey| ==> LocationKey[i] != '&';
      assert forall i :: 0 <= i < |PostedKey| ==> PostedKey[i] != '&';
    }
    assert url[|Base|..] == t + ['&'] + location + ['&'] + posted;
    ThreeParams(t, location, posted);
    var params := Split(url[|Base|..], '&');
    assert params[1][|LocationKey|..] == c;
    assert params[2][|PostedKey|..] == d;
    assert ParseInt(d) == Some(postedSince) by {
      IntToStringRoundTrip(postedSince);
    }
    SplitJoin(tags, ',');
    SplitJoin(countries, ',');
  }

  /** Three `&`-free values joined by `&` split back into those three values. */
  lemma {:induction false} ThreeParams(a: string, b: string, e: string)
    requires '&' !in a && '&' !in b && '&' !in e
    ensures Split(a + ['&'] + b + ['&'] + e, '&') == [a, b, e]
  {
    assert a + ['&'] + b + ['&'] + e == a + ['&'] + (b + ['&'] + e);
    SplitAt(a, '&', b + ['&'] + e);
    SplitAt(b, '&', e);
    SplitWhole(e, '&');
  }

  /**
   * Because tokens are not escaped, different filters can give the same
   * URL: a token holding a comma reads as two tokens, and an empty list
   * reads as a list holding one empty token.
   */
  lemma MakeUrlCollides(days: int)
    ensures MakeUrl(["usa,uk"], ["python"], days) == MakeUrl(["usa", "uk"], ["python"], days)
    ensures MakeUrl([], [], days) == MakeUrl([""], [""], days)
  {
  }
}
