# jobs-analyzer scraper core, modelled in Dafny

This project models the scraping core of `jobs-analyzer` (`src/scrape.py`), which harvests job listings from the WorkingNomads job board. The core has four parts:

- **Search URL builder** (`make_url`). It comma-joins the tag list and the country list. It splices them, with the day count, into a fixed query string. Nothing is escaped.
- **Pagination loader** (`load_elements`). It opens the search page and clicks "show more". In exhaustive mode it clicks until the control is gone. In bounded mode it makes at most `clicks` attempts and stops at the first failure. Then it collects the job cards.
- **Listing summary extractor** (`get_search_jobs`). It splits each card's text on `'\n'` and drops cards with fewer than 6 lines. It assigns fields by line count: exactly 7 lines means a salary is present. Any other count of 6 or more gives salary `"Unknown"`, and company and date move one line earlier. Records are appended in card order.
- **Detail fetcher** (`get_job_data`). It reads the description block and keeps the tag texts whose `strip()` is not empty.

Files:

- `wrappers.dfy` holds `Option` and `Result`.
- `text.dfy` holds the Python string operations the core uses: `str.split` with one separator character, `str.join`, `str.strip()` and `str(int)`. It also holds the inverses used to state round trips.
- `search_url.dfy` models `make_url`.
- `listings.dfy` models the field rule and the loop of `get_search_jobs`.
- `browser.dfy` models the browser session. It is a class over an oracle `site: string -> Page`. A `Page` says whether "show more" is clickable after k clicks, which cards are present after k clicks, whether a description block exists, and what the tag texts are.
- `pagination.dfy` models `load_elements`.
- `job_detail.dfy` models `get_job_data`.

Three facts about the code shape the model:

- The code tests `num_fields == 7` (src/scrape.py:170-172). So cards with 8 or more lines also get salary "Unknown", company and date come from lines 4 and 5, and the extra lines are ignored.
- The code never checks that the href is non-empty. A record's url is whatever `href` the card has.
- The code takes lists, so order and duplicates pass into the URL unchanged.

Each Dafny function is deterministic, so "same inputs, same URL" needs no lemma.

## Model

| member | source | states |
|---|---|---|
| Text.Split | src/scrape.py:158 | `str.split(sep)` always gives at least one piece, even for empty text |
| Text.SplitCount | src/scrape.py:158-159 | the number of pieces is the number of separators plus one, so blank and trailing empty lines count as fields |
| Text.JoinSplit | src/scrape.py:158 | joining the split pieces with the separator gives back the original text, so no character is lost or reordered |
| Text.SplitJoin | src/scrape.py:51-52 | splitting a comma-join of one or more comma-free tokens gives the tokens back |
| Text.JoinCount | src/scrape.py:51-52 | the meaning of `Text.Join` (`','.join`): joining k comma-free tokens puts exactly k - 1 commas in the text, so no token is duplicated or merged |
| Text.TrimLeftSpec | src/scrape.py:217 | the meaning of `Text.TrimLeft` (`lstrip()`): it removes exactly the leading run of Python whitespace, leaving a suffix that starts with a non-space |
| Text.TrimRightSpec | src/scrape.py:217 | the meaning of `Text.TrimRight` (`rstrip()`): it removes exactly the trailing run of Python whitespace, leaving a prefix that ends with a non-space |
| Text.StripSpec | src/scrape.py:217 | the meaning of `Text.Strip` (`strip()`): the result is the middle slice of the text, everything cut off is whitespace, and a non-empty result starts and ends with a non-space |
| Text.StripEmpty | src/scrape.py:217 | `strip()` is empty if and only if every character is whitespace |
| Text.IntToStringRoundTrip | src/scrape.py:53 | the meaning of `Text.IntToString` (`str(posted_since)` in the f-string): it reads back as the same integer, negative numbers included, and holds only digits and a leading minus |
| SearchUrl.MakeUrl | src/scrape.py:28-54 | the URL starts with the fixed `https://www.workingnomads.com/jobs?tag=` prefix |
| SearchUrl.MakeUrlRoundTrip | src/scrape.py:51-53 | for non-empty token lists without `,` or `&`, the URL decodes back to the same countries, tags and day count, in order and without duplication |
| SearchUrl.MakeUrlCollides | src/scrape.py:51-53 | tokens are not escaped: a country token holding a comma gives the same URL as two tokens, and empty lists give the same URL as lists holding one empty token |
| Listings.ParseFields | src/scrape.py:162-184 | no record for fewer than 6 lines; lines 0-3 are title, category, location and position type; with exactly 7 lines salary, company and date are lines 4-6; otherwise salary is "Unknown", company and date are lines 4-5; url is the href |
| Listings.LineCount | src/scrape.py:158-163 | a card has one more line than its text has newlines, and it yields a record exactly when it has at least 5 newlines |
| Listings.ExtraLinesIgnored | src/scrape.py:170-172 | a card with 8 or more lines is read exactly like its first 6 lines |
| Listings.ParseRender | src/scrape.py:166-172 | a record with no line break in its fields is read back from the 6-line card (salary "Unknown") or 7-line card rendered for it |
| Listings.GetSearchJobs | src/scrape.py:155-188 | the loop's output list is the record of each card with enough lines, appended in card order |
| Listings.SearchJobsAppend | src/scrape.py:157-186 | the output for two runs of cards is the output for the first run followed by the output for the second |
| Listings.SearchJobsOrigins | src/scrape.py:155-188 | the k-th record is the record of the card at the k-th kept position, and its url is that card's href; there are never more records than cards |
| Listings.KeptPositionsIncrease | src/scrape.py:157-186 | kept positions strictly increase, so records appear in input order |
| Listings.KeptPositionsComplete | src/scrape.py:157-186 | a card's position is kept if and only if the card has at least 6 lines: no long card is lost, and every short card is skipped without an error |
| Listings.ThreeCards | src/scrape.py:155-188 | a 7-line, a 6-line and a 2-line card give exactly two records: the first with its salary, the second with salary "Unknown"; the third card is dropped |
| Browser.Session.Get | src/scrape.py:96 | navigating loads the URL with nothing expanded yet |
| Browser.Session.ClickShowMore | src/scrape.py:100-109 | one wait-and-click attempt: it succeeds, and adds a click, exactly when the control is clickable; a failure leaves the page unchanged |
| Pagination.RunLength | src/scrape.py:98-109 | the number of clicks before the control first becomes unavailable: every earlier attempt succeeds and this one fails |
| Pagination.ClicksMadeIsFirstStop | src/scrape.py:98-121 | the click count is the only count where all earlier clicks succeeded, the bound holds in bounded mode, and the control was unavailable unless the bound was reached |
| Pagination.LoadElements | src/scrape.py:56-124 | navigates to the URL; with the source's defaults `full_load=True, clicks=1`, makes exactly the clicks `ClicksMade` gives; exhaustive mode ends only at the first unavailable control; bounded mode makes at most `clicks` attempts (none for a negative count); returns what `driver.find_elements` (`Session.FindCards`) sees at the end |
| JobDetail.Keywords | src/scrape.py:216-218 | the kept tag texts are no more than the tag texts, and each has a non-blank `strip()` |
| JobDetail.HasTextIff | src/scrape.py:217 | the meaning of `JobDetail.HasText` (the test `e.text.strip() != ''`): a tag text is kept if and only if it holds a non-whitespace character |
| JobDetail.KeywordsAppend | src/scrape.py:216-218 | the filter keeps page order: filtering two runs of tags gives the two filtered runs in order |
| JobDetail.KeywordsCount | src/scrape.py:216-218 | each non-blank tag text is kept as often as it occurs, and no blank one is kept; the texts are kept unstripped |
| JobDetail.GetJobData | src/scrape.py:213-225 | navigates to the URL; fails with element-not-found when the page has no description block; otherwise returns the url, the description and the filtered tags |

## Left out

- `web_driver` (src/scrape.py:11-26) is not modelled. It sets Chrome options, downloads the driver and launches the browser, which is foreign I/O. `Browser.Session` is built directly from a site oracle.
- Selenium's DOM, XPath and class selectors, the 5-second `WebDriverWait` timeout and `.text` rendering are not modelled. The `Page` oracle stands for what they observe.
- Navigation failures are not modelled: `Session.Get` always succeeds.
- `time.sleep`, the `print` logging and the `tqdm` progress bar are left out. They have no effect on the logic.
- The bare `except:` around the click (src/scrape.py:107, 119) is modelled only as "control not clickable, so stop". Other exceptions the click could raise are not told apart.
- Pagination.LoadElements: the oracle's availability sequence is finite, and past its end the control is gone. So exhaustive mode always ends in the model. On a page whose control stays clickable forever, the source loops without end.
- Clicks are assumed to change only how many cards are present (`cardsAfter`). Any other effect of a click on the page is not modelled.
- `get_attribute("href")` can return `None` in Selenium. The model takes the href as a string.
- `scripts/scrape_data.py` is not part of this model. It loads environment settings and writes a CSV through pandas. It also imports `get_data`, which `src/scrape.py` does not define.
- `SearchUrl.ParseUrl`, `Listings.Render` and `Listings.CardText` are not in the source. They are the decoder and the renderer used to state round trips. `Text.ParseInt` likewise stands in for how the site reads the day count.
- Python whitespace for `strip()` is the fixed list of code points Python treats as whitespace, written out in `Text.IsSpace`.
