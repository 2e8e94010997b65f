/**
 * The pagination loader (`load_elements`): open the search page, click
 * "show more" until it is gone (exhaustive mode) or at most a given number
 * of times (bounded mode), then collect the job cards.
 */
module Pagination {
  import opened Listings
  import opened Browser

  /** The number of clicks that succeed before the control first fails. */
  function RunLength(showMore: seq<bool>): (n: nat)
    ensures n <= |showMore|
    ensures forall j :: 0 <= j < n ==> showMore[j]
    ensures !Clickable(showMore, n)
    decreases |showMore|
  {
    if |showMore| == 0 || !showMore[0] then 0 else 1 + RunLength(showMore[1..])
  }

  /** How many times `range(clicks)` iterates. */
  function Iterations(clicks: int): nat
  {
    if clicks < 0 then 0 else clicks
  }

  /** The clicks the loader makes: all that succeed, or no more than `clicks` of them. */
  function ClicksMade(showMore: seq<bool>, fullLoad: bool, clicks: int): nat
  {
    var run := RunLength(showMore);
    if fullLoad || run <= Iterations(clicks) then run else Iterations(clicks)
  }

  /**
   * The click count is exactly the one that the loop's exit rule picks:
   * every click before it succeeded, it is within the bound in bounded
   * mode, and unless the bound was reached the control was not clickable
   * at the next attempt. No other count has these properties.
   */
  lemma ClicksMadeIsFirstStop(showMore: seq<bool>, fullLoad: bool, clicks: int, k: nat)
    ensures k == ClicksMade(showMore, fullLoad, clicks) <==>
      && (forall j :: 0 <= j < k ==> Clickable(showMore, j))
      && (!fullLoad ==> k <= Iterations(clicks))
      && ((fullLoad || k < Iterations(clicks)) ==> !Clickable(showMore, k))
  {
  }

  /**
   * `load_elements(driver, url, full_load=True, clicks=1)`: navigates to `url`,
   * clicks "show more" as the mode allows, and returns the cards present
   * at the end. In bounded mode a failed lookup ends the loop early; in
   * either mode the loop makes one lookup after the last successful click
   * unless the bound stopped it.
   */
  method LoadElements(driver: Session, url: string, fullLoad: bool := true, clicks: int := 1) returns (elements: seq<Element>)
    modifies driver
    ensures driver.url == url
    ensures driver.clicks == ClicksMade(driver.site(url).showMore, fullLoad, clicks)
    ensures fullLoad ==> driver.lookups == driver.clicks + 1
    ensures !fullLoad ==> driver.lookups <= Iterations(clicks)
    ensures !fullLoad ==>
      driver.lookups == if driver.clicks < Iterations(clicks) then driver.clicks + 1 else driver.clicks
    ensures elements == driver.FindCards()
  {
    driver.Get(url);
    ghost var showMore := driver.site(url).showMore;
    if fullLoad {
      while true
        invariant driver.url == url && driver.lookups == driver.clicks
        invariant driver.clicks <= |showMore|
        invariant forall j :: 0 <= j < driver.clicks ==> Clickable(showMore, j)
        decreases |showMore| - driver.clicks
      {
        var clicked := driver.ClickShowMore();
        if !clicked {
          break;
        }
      }
      ClicksMadeIsFirstStop(showMore, fullLoad, clicks, driver.clicks);
    } else {
      var n := Iterations(clicks);
      var i := 0;
      while i < n
        invariant 0 <= i <= n
        invariant driver.url == url && driver.lookups == driver.clicks == i
        invariant forall j :: 0 <= j < i ==> Clickable(showMore, j)
      {
        var clicked := driver.ClickShowMore();
        if !clicked {
          break;
        }
        i := i + 1;
      }
      ClicksMadeIsFirstStop(showMore, fullLoad, clicks, driver.clicks);
    }
    elements := driver.FindCards();
  }
}
