/**
 * The listing detail fetcher (`get_job_data`): open one listing's page,
 * read its description block, and keep the tag labels whose text is not
 * blank.
 */
module JobDetail {
  import opened Wrappers
  import opened Text
  import opened Browser

  /** The record `get_job_data` returns. */
  datatype JobData = JobData(url: string, description: string, keywords: seq<string>)

  /** The one failure the detail fetcher lets through: the description block is missing. */
  datatype DetailError = NoSuchElement

  /** A tag text the filter keeps: something is left after `strip()`. */
  predicate HasText(t: string)
  {
    Strip(t) != ""
  }

  /**
   * The keyword comprehension: the tag texts whose stripped form is not
   * empty, unstripped, in page order.
   */
  function Keywords(tagTexts: seq<string>): (r: seq<string>)
    ensures |r| <= |tagTexts|
    ensures forall k :: 0 <= k < |r| ==> HasText(r[k])
    decreases |tagTexts|
  {
    if |tagTexts| == 0 then []
    else (if HasText(tagTexts[0]) then [tagTexts[0]] else []) + Keywords(tagTexts[1..])
  }

  /** A tag text is kept exactly when it holds a character that is not whitespace. */
  lemma HasTextIff(t: string)
    ensures HasText(t) <==> exists i :: 0 <= i < |t| && !IsSpace(t[i])
  {
    StripEmpty(t);
  }

  /** Filtering two runs of tags filters each, keeping their order. */
  lemma {:induction false} KeywordsAppend(a: seq<string>, b: seq<string>)
    ensures Keywords(a + b) == Keywords(a) + Keywords(b)
    decreases |a|
  {
    if |a| == 0 {
      assert a + b == b;
    } else {
      var head := if HasText(a[0]) then [a[0]] else [];
      assert (a + b)[0] == a[0] && (a + b)[1..] == a[1..] + b;
      assert Keywords(a + b) == head + Keywords(a[1..] + b);
      KeywordsAppend(a[1..], b);
      assert head + (Keywords(a[1..]) + Keywords(b)) == (head + Keywords(a[1..])) + Keywords(b);
    }
  }

  /**
   * Every tag text with text survives as often as it occurs, and no blank
   * one survives.
   */
  lemma {:induction false} KeywordsCount(tagTexts: seq<string>, t: string)
    ensures multiset(Keywords(tagTexts))[t] == if HasText(t) then multiset(tagTexts)[t] else 0
    decreases |tagTexts|
  {
    if |tagTexts| > 0 {
      var x, rest := tagTexts[0], tagTexts[1..];
      KeywordsCount(rest, t);
      assert multiset(tagTexts)[t] == multiset{x}[t] + multiset(rest)[t] by {
        assert tagTexts == [x] + rest;
      }
      assert multiset(Keywords(tagTexts))[t] == (if HasText(x) then multiset{x}[t] else 0) + multiset(Keywords(rest))[t] by {
        if HasText(x) {
          assert Keywords(tagTexts) == [x] + Keywords(rest);
        } else {
          assert Keywords(tagTexts) == Keywords(rest);
        }
      }
    }
  }

  /**
   * `get_job_data(driver, url)`: navigates to `url`; fails if the page has
   * no description block, otherwise returns the url, the description and
   * the filtered tag texts.
   */
  method GetJobData(driver: Session, url: string) returns (r: Result<JobData, DetailError>)
    modifies driver
    ensures driver.url == url && driver.clicks == 0 && driver.lookups == 0
    ensures driver.site(url).description.None? ==> r == Failure(NoSuchElement)
    ensures driver.site(url).description.Some? ==>
      r == Success(JobData(url, driver.site(url).description.value, Keywords(driver.site(url).tagTexts)))
  {
    driver.Get(url);
    var page := driver.Current();
    if page.description.None? {
      return Failure(NoSuchElement);
    }
    var jobDescription := page.description.value;
    var jobKeywords := Keywords(page.tagTexts);
    r := Success(JobData(url, jobDescription, jobKeywords));
  }
}
