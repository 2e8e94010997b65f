/**
 * The listing summary extractor (`get_search_jobs`): each job card's
 * rendered text is split into lines and the fields are assigned by line
 * count alone.
 */
module Listings {
  import opened Wrappers
  import opened Text

  /** One job card as the results page shows it: its rendered text and its link target. */
  datatype Element = Element(text: string, href: string)

  /** The record `get_search_jobs` emits for one card. */
  datatype Summary = Summary(
    title: string, category: string, location: string, positionType: string,
    salary: string, company: string, date: string, url: string)

  /** Cards with fewer lines than this are dropped. */
  const MinFields := 6
  /** The one line count at which the card is read as carrying a salary. */
  const SalaryFields := 7
  /** The salary recorded when the card is not read as carrying one. */
  const UnknownSalary := "Unknown"

  /**
   * The field-assignment rule: `None` for fewer than six lines; lines 0-3
   * are title, category, location and position type; with exactly seven
   * lines salary, company and date are lines 4, 5 and 6, and with any other
   * count salary is "Unknown", company is line 4, date line 5 and any
   * further lines are ignored.
   */
  function ParseFields(fields: seq<string>, href: string): (r: Option<Summary>)
    ensures r.Some? <==> |fields| >= MinFields
    ensures r.Some? ==> (r.value.url == href &&
      [r.value.title, r.value.category, r.value.location, r.value.positionType] == fields[..4])
    ensures r.Some? && |fields| == SalaryFields ==>
      [r.value.salary, r.value.company, r.value.date] == fields[4..7]
    ensures r.Some? && |fields| != SalaryFields ==>
      r.value.salary == UnknownSalary && [r.value.company, r.value.date] == fields[4..6]
  {
    if |fields| < MinFields then None
    else
      var withSalary := |fields| == SalaryFields;
      Some(Summary(
        fields[0], fields[1], fields[2], fields[3],
        if withSalary then fields[4] else UnknownSalary,
        if withSalary then fields[5] else fields[4],
        if withSalary then fields[6] else fields[5],
        href))
  }

  /** The lines of a card's text, as `text.split('\n')` gives them. */
  function Lines(e: Element): seq<string>
  {
    Split(e.text, '\n')
  }

  /** One card's record, if it has enough lines. */
  function ParseElement(e: Element): Option<Summary>
  {
    ParseFields(Lines(e), e.href)
  }

  /** A card has one line more than its text has newline characters; blank and trailing lines count. */
  lemma LineCount(e: Element)
    ensures |Lines(e)| == multiset(e.text)['\n'] + 1
    ensures ParseElement(e).Some? <==> multiset(e.text)['\n'] >= MinFields - 1
  {
    SplitCount(e.text, '\n');
  }

  /** What the loop appends for one card: its record, or nothing. */
  function Emitted(e: Element): seq<Summary>
  {
    match ParseElement(e)
    case Some(s) => [s]
    case None => []
  }

  /** The records `get_search_jobs` returns for a card sequence. */
  function SearchJobs(elements: seq<Element>): seq<Summary>
  {
    if |elements| == 0 then []
    else SearchJobs(elements[..|elements| - 1]) + Emitted(elements[|elements| - 1])
  }

  /**
   * `get_search_jobs`: one pass over the cards, appending the record of
   * each card that has enough lines and skipping the others. The field
   * rule is `ParseFields`, inlined in the source.
   */
  method GetSearchJobs(elements: seq<Element>) returns (allOutputs: seq<Summary>)
    ensures allOutputs == SearchJobs(elements)
  {
    allOutputs := [];
    for i := 0 to |elements|
      invariant allOutputs == SearchJobs(elements[..i])
    {
      assert elements[..i + 1][..i] == elements[..i];
      var item := elements[i];
      var output := ParseFields(Split(item.text, '\n'), item.href);
      if output.None? {
        continue;
      }
      allOutputs := allOutputs + [output.value];
    }
    assert elements[..|elements|] == elements;
  }

  /** The records of two runs of cards are the records of each, in order. */
  lemma {:induction false} SearchJobsAppend(a: seq<Element>, b: seq<Element>)
    ensures SearchJobs(a + b) == SearchJobs(a) + SearchJobs(b)
    decreases |b|
  {
    if |b| == 0 {
      assert a + b == a;
    } else {
      var b' := b[..|b| - 1];
      assert (a + b)[..|a + b| - 1] == a + b';
      SearchJobsAppend(a, b');
    }
  }

  /** The positions of the cards that produce a record, in increasing order. */
  function KeptPositions(elements: seq<Element>): seq<nat>
  {
    if |elements| == 0 then []
    else
      var n := |elements| - 1;
      KeptPositions(elements[..n]) + (if ParseElement(elements[n]).Some? then [n] else [])
  }

  /**
   * The k-th record is the record of the card at the k-th kept position,
   * so its url is that card's href; there are never more records than cards.
   */
  lemma {:induction false} SearchJobsOrigins(elements: seq<Element>)
    ensures |SearchJobs(elements)| == |KeptPositions(elements)| <= |elements|
    ensures forall k :: 0 <= k < |KeptPositions(elements)| ==>
      KeptPositions(elements)[k] < |elements| &&
      ParseElement(elements[KeptPositions(elements)[k]]) == Some(SearchJobs(elements)[k]) &&
      SearchJobs(elements)[k].url == elements[KeptPositions(elements)[k]].href
    decreases |elements|
  {
    if |elements| > 0 {
      var n := |elements| - 1;
      var front := elements[..n];
      SearchJobsOrigins(front);
      var kept, out := KeptPositions(elements), SearchJobs(elements);
      forall k | 0 <= k < |kept|
        ensures kept[k] < |elements| && ParseElement(elements[kept[k]]) == Some(out[k])
      {
        if k < |KeptPositions(front)| {
          assert kept[k] == KeptPositions(front)[k];
          assert out[k] == SearchJobs(front)[k];
          assert elements[kept[k]] == front[kept[k]];
        }
      }
    }
  }

  /** The kept positions are strictly increasing: records keep the cards' order. */
  lemma {:induction false} KeptPositionsIncrease(elements: seq<Element>)
    ensures forall k, l :: 0 <= k < l < |KeptPositions(elements)| ==>
      KeptPositions(elements)[k] < KeptPositions(elements)[l]
    decreases |elements|
  {
    if |elements| > 0 {
      var n := |elements| - 1;
      KeptPositionsIncrease(elements[..n]);
      SearchJobsOrigins(elements[..n]);
    }
  }

  /**
   * A card's position is kept exactly when the card has at least six
   * lines: no card with enough lines is lost, and every shorter card is
   * skipped.
   */
  lemma {:induction false} KeptPositionsComplete(elements: seq<Element>, i: nat)
    requires i < |elements|
    ensures i in KeptPositions(elements) <==> |Lines(elements[i])| >= MinFields
    decreases |elements|
  {
    SearchJobsOrigins(elements);
    var n := |elements| - 1;
    if i < n && |Lines(elements[i])| >= MinFields {
      KeptPositionsComplete(elements[..n], i);
      assert elements[..n][i] == elements[i];
    }
  }

  /** The text of a card whose lines are exactly `lines`. */
  function CardText(lines: seq<string>): string
  {
    Join(lines, '\n')
  }

  /**
   * The card the site renders for a record: seven lines when a salary is
   * shown, six lines when it is "Unknown".
   */
  function Render(s: Summary): Element
  {
    var head := [s.title, s.category, s.location, s.positionType];
    var lines := if s.salary == UnknownSalary then head + [s.company, s.date]
                 else head + [s.salary, s.company, s.date];
    Element(CardText(lines), s.url)
  }

  /** Every record whose fields hold no line break is read back from the card rendered for it. */
  lemma ParseRender(s: Summary)
    requires '\n' !in s.title + s.category + s.location + s.positionType + s.salary + s.company + s.date
    ensures ParseElement(Render(s)) == Some(s)
  {
    var head := [s.title, s.category, s.location, s.positionType];
    var lines := if s.salary == UnknownSalary then head + [s.company, s.date]
                 else head + [s.salary, s.company, s.date];
    assert Free(lines, '\n') by {
      forall k | 0 <= k < |lines| ensures '\n' !in lines[k] {
        assert multiset(lines[k]) <= multiset(s.title + s.category + s.location + s.positionType + s.salary + s.company + s.date);
      }
    }
    SplitJoin(lines, '\n');
  }

  /**
   * Any line count of eight or more is read like six: salary "Unknown",
   * company and date from lines 4 and 5, and the extra lines dropped.
   */
  lemma ExtraLinesIgnored(fields: seq<string>, extra: seq<string>, href: string)
    requires |fields| == MinFields && |extra| >= 2
    ensures ParseFields(fields + extra, href) == ParseFields(fields, href)
  {
  }

  /**
   * Three cards: a seven-line card, a six-line card and a two-line card,
   * each given by its lines. Two records come out, the second with an
   * "Unknown" salary; the two-line card is dropped.
   */
  lemma ThreeCards(first: seq<string>, second: seq<string>, third: seq<string>)
    requires first == ["Backend Engineer", "Engineering", "Remote/UK", "Full-time", "$80k-$100k", "Acme Co", "2024-01-01"]
    requires second == ["Data Analyst", "Data", "Remote/USA", "Contract", "BetaCorp", "2024-01-02"]
    requires third == ["OnlyTitle", "OnlyCategory"]
    ensures SearchJobs([Element(CardText(first), "u1"), Element(CardText(second), "u2"), Element(CardText(third), "u3")])
      == [Summary("Backend Engineer", "Engineering", "Remote/UK", "Full-time", "$80k-$100k", "Acme Co", "2024-01-01", "u1"),
          Summary("Data Analyst", "Data", "Remote/USA", "Contract", "Unknown", "BetaCorp", "2024-01-02", "u2")]
  {
    var e1, e2, e3 := Element(CardText(first), "u1"), Element(CardText(second), "u2"), Element(CardText(third), "u3");
    var s1 := Summary("Backend Engineer", "Engineering", "Remote/UK", "Full-time", "$80k-$100k", "Acme Co", "2024-01-01", "u1");
    var s2 := Summary("Data Analyst", "Data", "Remote/USA", "Contract", "Unknown", "BetaCorp", "2024-01-02", "u2");
    assert Emitted(e1) == [s1] by {
      NewlineFree(first);
      SplitJoin(first, '\n');
    }
    assert Emitted(e2) == [s2] by {
      NewlineFree(second);
      SplitJoin(second, '\n');
    }
    assert Emitted(e3) == [] by {
      NewlineFree(third);
      SplitJoin(third, '\n');
    }
    assert [e1][..0] == [];
    assert SearchJobs([e1]) == [s1];
    assert [e1, e2][..1] == [e1];
    assert SearchJobs([e1, e2]) == [s1, s2];
    assert [e1, e2, e3][..2] == [e1, e2];
  }

  /** Lines none of whose characters is a line break are free of the separator. */
  lemma NewlineFree(lines: seq<string>)
    requires forall k :: 0 <= k < |lines| ==> forall j :: 0 <= j < |lines[k]| ==> lines[k][j] != '\n'
    ensures Free(lines, '\n')
  {
  }
}
