/**
 * The browser session the scraper drives, reduced to what the scraper
 * observes. The site is an oracle from URL to page; the session remembers
 * the current URL and how often the "show more" control was looked up and
 * clicked since the last navigation.
 */
module Browser {
  import opened Wrappers
  import opened Listings

  /**
   * What the site serves at one URL: whether the "show more" control is
   * clickable after k clicks (`showMore[k]`; past the end of the sequence
   * it is gone), the job cards present after k clicks, the description
   * block if there is one, and the texts of the tag labels in page order.
   */
  datatype Page = Page(
    showMore: seq<bool>,
    cardsAfter: nat -> seq<Element>,
    description: Option<string>,
    tagTexts: seq<string>)

  /** Whether the control can be clicked once `k` clicks have been made. */
  predicate Clickable(showMore: seq<bool>, k: nat)
  {
    k < |showMore| && showMore[k]
  }

  class Session {
    /** The site as the browser sees it. */
    const site: string -> Page
    /** The page the session is on. */
    var url: string
    /** Successful clicks on "show more" since the last navigation. */
    var clicks: nat
    /** Waits for a clickable "show more" control since the last navigation. */
    var lookups: nat

    constructor (site: string -> Page)
      ensures this.site == site && url == "" && clicks == 0 && lookups == 0
    {
      this.site := site;
      url := "";
      clicks := 0;
      lookups := 0;
    }

    /** The page the session currently shows. */
    function Current(): Page
      reads this
    {
      site(url)
    }

    /** `driver.get(u)`: a fresh load of `u`, nothing expanded yet. */
    method Get(u: string)
      modifies this
      ensures url == u && clicks == 0 && lookups == 0
    {
      url := u;
      clicks := 0;
      lookups := 0;
    }

    /**
     * Waits for the "show more" control and clicks it; `false` when it is
     * not clickable in time, which leaves the page as it was.
     */
    method ClickShowMore() returns (clicked: bool)
      modifies this
      ensures url == old(url) && lookups == old(lookups) + 1
      ensures clicked == Clickable(Current().showMore, old(clicks))
      ensures clicks == if clicked then old(clicks) + 1 else old(clicks)
    {
      lookups := lookups + 1;
      clicked := Clickable(site(url).showMore, clicks);
      if clicked {
        clicks := clicks + 1;
      }
    }

    /** The job cards present on the current page. */
    function FindCards(): seq<Element>
      reads this
    {
      Current().cardsAfter(clicks)
    }
  }
}
