/** The scraper's own logic: the reachability retry loop, the paginated
    harvest of listing items into records, and the two report filters
    (drop records without reviews, then split at 100 reviews).

    The browser and the HTML parser are replaced by inputs: `loads(k)` says
    whether the k-th page load (0-based) succeeds, and `site(n)` is what the
    n-th result page shows once rendered. */
module Scraping {
  import opened Common
  import opened Strings
  import opened Lists

  /** The site origin every product link is prefixed with. */
  const Origin: string := "https://www.magazineluiza.com.br"

  /** Page bound used when the caller passes no (or a zero) bound. */
  const DefaultMaxPages: int := 100

  /** Number of page loads tried by default before the site is declared down. */
  const DefaultTries: int := 3

  // ---------------------------------------------------------------------
  // Reachability check

  /** Tries to load the site up to `tries` times and reports whether one
      load succeeded. `attempts` counts the loads made: the loop stops at the
      first success and makes none when `tries` is not positive. */
  method VerifyWebsite(loads: nat -> bool, tries: int := DefaultTries)
    returns (reachable: bool, ghost attempts: nat)
    ensures reachable <==> exists k: nat :: k < tries && loads(k)
    ensures attempts <= if tries < 0 then 0 else tries
    ensures reachable ==> 0 < attempts && loads(attempts - 1)
    ensures forall k: nat :: k < attempts - 1 ==> !loads(k)
    ensures !reachable ==> attempts == if tries < 0 then 0 else tries
  {
    var tr := 0;
    attempts := 0;
    while tr < tries
      invariant 0 <= tr && (tries >= 0 ==> tr <= tries) && (tries < 0 ==> tr == 0)
      invariant attempts == tr
      invariant forall k: nat :: k < tr ==> !loads(k)
    {
      attempts := tr + 1;
      if loads(tr) {
        return true, attempts;
      }
      tr := tr + 1;
    }
    return false, attempts;
  }

  // ---------------------------------------------------------------------
  // Listing items and records

  /** One `li` of the product list: its title text, the `href` of its card
      link, and the text of its score-count span when it has one. */
  datatype Item = Item(title: string, href: string, scoreText: Option<string>)

  /** One rendered result page: its items in document order, whether the
      lookup of a disabled "next" button (by XPath, no wait) finds one, and
      whether the "next" button turns clickable within the 5-second wait. */
  datatype Page = Page(items: seq<Item>, nextDisabled: bool, nextClickable: bool)

  /** `[nome, qtd_aval, url]`: the review count is kept as the raw token. */
  datatype Record = Record(title: string, count: string, url: string)

  /** Exceptions that end the harvest: `IndexError` from a score text with
      fewer than two words (on the page given), and the click wait on the
      "next" button timing out (while moving to the page given). */
  datatype ScrapeError = ScoreWithoutCount(page: int) | NextClickTimeout(page: int)

  /** The review-count token of a score text such as "4.8 (1234)": its second
      word, with one leading '(' and one trailing ')' removed. `None` where
      Python raises `IndexError` (fewer than two words). */
  function CountToken(text: string): Option<string> {
    var ws := Words(text);
    if |ws| < 2 then None else Some(RemoveSuffix(RemovePrefix(ws[1], "("), ")"))
  }

  /** A rating word followed by a parenthesised count yields the count. */
  lemma CountTokenOfScore(rating: string, count: string)
    requires IsWord(rating) && NoSpace(count)
    ensures CountToken(rating + " (" + count + ")") == Some(count)
  {
    var word := "(" + count + ")";
    ParenthesisedIsWord(count);
    assert rating + " (" + count + ")" == rating + " " + word;
    WordsOfPair(rating, word);
    assert Words(rating + " (" + count + ")")[1] == word;
    StripParentheses(count);
  }

  /** One '(' comes off the front and one ')' off the back. */
  lemma StripParentheses(count: string)
    ensures RemoveSuffix(RemovePrefix("(" + count + ")", "("), ")") == count
  {
    var word := "(" + count + ")";
    assert "(" <= word;
    assert word[1..] == count + ")";
    var inner := count + ")";
    assert inner[|inner| - 1..] == ")";
    assert inner[..|inner| - 1] == count;
  }

  lemma ParenthesisedIsWord(count: string)
    requires NoSpace(count)
    ensures IsWord("(" + count + ")")
  {
    var word := "(" + count + ")";
    forall i | 0 <= i < |word| ensures !IsSpace(word[i]) {
      if 0 < i < |word| - 1 {
        assert word[i] == count[i - 1];
      }
    }
  }

  /** The example of the score span in the listing: "4.8 (1234)" gives "1234". */
  lemma CountTokenExample()
    ensures CountToken("4.8 (1234)") == Some("1234")
  {
    assert IsWord("4.8");
    CountTokenOfScore("4.8", "1234");
    assert "4.8" + " (" + "1234" + ")" == "4.8 (1234)";
  }

  /** A score text with a single word has no count: Python raises. */
  lemma CountTokenNeedsTwoWords(w: string)
    requires IsWord(w)
    ensures CountToken(w) == None
  {
    WordsOfWord(w);
  }

  /** What the inner loop does with one item. */
  datatype ItemOutcome = Skipped | Kept(record: Record) | Raises

  function ParseItem(item: Item): ItemOutcome {
    match item.scoreText
    case None => Skipped
    case Some(text) =>
      match CountToken(text)
      case None => Raises
      case Some(token) => Kept(Record(item.title, token, Origin + item.href))
  }

  /** An item without a score span is skipped. A kept record carries the
      item's title, the count token of its score text, and the site origin
      followed by the href exactly as given, even an href that is already an
      absolute address. */
  lemma ParseItemSpec(item: Item)
    ensures ParseItem(item).Skipped? <==> item.scoreText.None?
    ensures ParseItem(item).Raises? <==> item.scoreText.Some? && CountToken(item.scoreText.value).None?
    ensures ParseItem(item).Kept? ==>
      var r := ParseItem(item).record;
      && r.title == item.title
      && CountToken(item.scoreText.value) == Some(r.count)
      && r.url[..|Origin|] == Origin && r.url[|Origin|..] == item.href
  {
  }

  /** The records a page contributes, item by item, with `parse` deciding
      each item; `None` when an item raises, which loses the whole harvest. */
  function Collect(items: seq<Item>, parse: Item -> ItemOutcome): Option<seq<Record>>
    decreases |items|
  {
    if items == [] then Some([])
    else
      match Collect(items[..|items| - 1], parse)
      case None => None
      case Some(rs) =>
        match parse(items[|items| - 1])
        case Skipped => Some(rs)
        case Kept(r) => Some(rs + [r])
        case Raises => None
  }

  /** The records the listing page's items give. */
  function PageRecords(items: seq<Item>): Option<seq<Record>> {
    Collect(items, ParseItem)
  }

  predicate HasScore(item: Item) {
    item.scoreText.Some?
  }

  /** No item has a score text without a count. */
  predicate AllScoresParse(items: seq<Item>) {
    forall i :: 0 <= i < |items| ==> !ParseItem(items[i]).Raises?
  }

  lemma {:induction false} CollectFails(items: seq<Item>, parse: Item -> ItemOutcome)
    ensures Collect(items, parse).Some? <==> forall i :: 0 <= i < |items| ==> !parse(items[i]).Raises?
    decreases |items|
  {
    if items != [] {
      var init := items[..|items| - 1];
      CollectFails(init, parse);
      assert forall i :: 0 <= i < |init| ==> items[i] == init[i];
    }
  }

  /** A page fails exactly when some scored item's text lacks a count. */
  lemma PageRecordsFails(items: seq<Item>)
    ensures PageRecords(items).Some? <==> AllScoresParse(items)
  {
    CollectFails(items, ParseItem);
  }

  lemma {:induction false} CollectSpec(items: seq<Item>, parse: Item -> ItemOutcome, keep: Item -> bool)
    requires Collect(items, parse).Some?
    requires forall it :: parse(it).Skipped? <==> !keep(it)
    ensures var kept := Filter(items, keep);
      var rs := Collect(items, parse).value;
      && |rs| == |kept|
      && forall k :: 0 <= k < |rs| ==> parse(kept[k]) == Kept(rs[k])
    decreases |items|
  {
    if items != [] {
      var init := items[..|items| - 1];
      var last := items[|items| - 1];
      CollectSpec(init, parse, keep);
      var kept := Filter(items, keep);
      var kept0 := Filter(init, keep);
      var rs := Collect(items, parse).value;
      var rs0 := Collect(init, parse).value;
      assert kept == kept0 + Filter([last], keep) by {
        assert items == init + [last];
        FilterAppend(init, [last], keep);
      }
      if keep(last) {
        assert Filter([last], keep) == [last];
        assert rs == rs0 + [parse(last).record];
      } else {
        assert Filter([last], keep) == [];
        assert rs == rs0;
      }
      forall k | 0 <= k < |rs| ensures parse(kept[k]) == Kept(rs[k]) {
        if k < |rs0| {
          assert kept[k] == kept0[k] && rs[k] == rs0[k];
        }
      }
    }
  }

  /** A page's records are exactly its scored items, in item order, each
      turned into `[title, token, origin + href]`; items without a score span
      are dropped. */
  lemma PageRecordsSpec(items: seq<Item>)
    requires PageRecords(items).Some?
    ensures var scored := Filter(items, HasScore);
      var rs := PageRecords(items).value;
      && |rs| == |scored|
      && forall k :: 0 <= k < |rs| ==> ParseItem(scored[k]) == Kept(rs[k])
  {
    CollectSpec(items, ParseItem, HasScore);
  }

  // ---------------------------------------------------------------------
  // Pagination

  /** `max_pages` after `if not max_pages: max_pages = 100`. */
  function EffectiveMaxPages(maxPages: Option<int>): int {
    if maxPages == None || maxPages == Some(0) then DefaultMaxPages else maxPages.value
  }

  /** The harvest from page `page` onward with bound `bound`: each page's
      records are appended, the loop stops after a page whose "next" button
      is disabled, and otherwise clicks "next" (which must become clickable)
      and continues while the counter stays within the bound. */
  function Harvest(site: nat -> Page, page: nat, bound: int): Result<seq<Record>, ScrapeError>
    decreases bound - page
  {
    if page > bound then Ok([])
    else
      var p := site(page);
      match PageRecords(p.items)
      case None => Err(ScoreWithoutCount(page))
      case Some(rs) =>
        if p.nextDisabled then Ok(rs)
        else if !p.nextClickable then Err(NextClickTimeout(page + 1))
        else
          match Harvest(site, page + 1, bound)
          case Err(e) => Err(e)
          case Ok(more) => Ok(rs + more)
  }

  /** The pages on which the loop body runs, in order. */
  function VisitedPages(site: nat -> Page, page: nat, bound: int): seq<nat>
    decreases bound - page
  {
    if page > bound then []
    else
      var p := site(page);
      if PageRecords(p.items).None? || p.nextDisabled || !p.nextClickable then [page]
      else [page] + VisitedPages(site, page + 1, bound)
  }

  /** Prefixes the records gathered so far to the rest of the harvest. */
  function Prepend(rs: seq<Record>, rest: Result<seq<Record>, ScrapeError>): Result<seq<Record>, ScrapeError> {
    match rest
    case Ok(more) => Ok(rs + more)
    case Err(e) => Err(e)
  }

  /** One iteration of the page loop, as the two specifications see it. */
  lemma HarvestStep(site: nat -> Page, page: nat, bound: int)
    requires page <= bound
    ensures var p := site(page);
      var pr := PageRecords(p.items);
      && (pr.None? ==> Harvest(site, page, bound) == Err(ScoreWithoutCount(page)))
      && (pr.Some? && p.nextDisabled ==> Harvest(site, page, bound) == Ok(pr.value))
      && (pr.Some? && !p.nextDisabled && !p.nextClickable ==>
            Harvest(site, page, bound) == Err(NextClickTimeout(page + 1)))
      && (pr.Some? && !p.nextDisabled && p.nextClickable ==>
            Harvest(site, page, bound) == Prepend(pr.value, Harvest(site, page + 1, bound)))
      && (pr.None? || p.nextDisabled || !p.nextClickable ==> VisitedPages(site, page, bound) == [page])
      && (pr.Some? && !p.nextDisabled && p.nextClickable ==>
            VisitedPages(site, page, bound) == [page] + VisitedPages(site, page + 1, bound))
  {
  }

  lemma AppendAssoc<T>(a: seq<T>, b: seq<T>, c: seq<T>)
    ensures a + (b + c) == (a + b) + c
  {
  }

  lemma PrependNothing(rest: Result<seq<Record>, ScrapeError>)
    ensures Prepend([], rest) == rest
  {
    if rest.Ok? {
      assert [] + rest.value == rest.value;
    }
  }

  lemma PrependTwice(a: seq<Record>, b: seq<Record>, rest: Result<seq<Record>, ScrapeError>)
    ensures Prepend(a, Prepend(b, rest)) == Prepend(a + b, rest)
  {
    if rest.Ok? {
      assert a + (b + rest.value) == (a + b) + rest.value;
    }
  }

  /** The inner `for product in products` loop: appends the records of one
      page to `products`, or gives `None` when an item raises. */
  method AppendPageRecords(products: seq<Record>, items: seq<Item>) returns (r: Option<seq<Record>>)
    ensures PageRecords(items).None? ==> r.None?
    ensures PageRecords(items).Some? ==> r == Some(products + PageRecords(items).value)
  {
    var acc := products;
    var j := 0;
    while j < |items|
      invariant 0 <= j <= |items|
      invariant PageRecords(items[..j]).Some?
      invariant acc == products + PageRecords(items[..j]).value
    {
      var item := items[j];
      PageRecordsSnoc(items, j);
      match item.scoreText {
        case None =>
        case Some(text) =>
          var token := CountToken(text);
          if token.None? {
            PageRecordsFailsFrom(items, j + 1);
            return None;
          }
          acc := acc + [Record(item.title, token.value, Origin + item.href)];
      }
      j := j + 1;
    }
    assert items[..j] == items;
    return Some(acc);
  }

  /** Extending the items seen so far by the next one applies one step of
      the per-item loop to the records gathered so far. */
  lemma PageRecordsSnoc(items: seq<Item>, j: nat)
    requires j < |items|
    ensures PageRecords(items[..j + 1]) ==
      match PageRecords(items[..j])
      case None => None
      case Some(rs) =>
        match ParseItem(items[j])
        case Skipped => Some(rs)
        case Kept(r) => Some(rs + [r])
        case Raises => None
  {
    assert items[..j + 1][..j] == items[..j];
  }

  /** Once a prefix of the items fails, the whole page fails. */
  lemma {:induction false} PageRecordsFailsFrom(items: seq<Item>, n: nat)
    requires n <= |items| && PageRecords(items[..n]).None?
    ensures PageRecords(items).None?
    decreases |items| - n
  {
    if n < |items| {
      assert items[..n + 1][..n] == items[..n];
      PageRecordsFailsFrom(items, n + 1);
    } else {
      assert items[..n] == items;
    }
  }

  /** `extrair_dados`: the page loop and the per-item loop, appending to one
      list. The result is the harvest from page 1 with the effective bound,
      and `visited` lists the pages the loop body ran on. */
  method ExtractData(site: nat -> Page, maxPages: Option<int>)
    returns (result: Result<seq<Record>, ScrapeError>, ghost visited: seq<nat>)
    ensures result == Harvest(site, 1, EffectiveMaxPages(maxPages))
    ensures visited == VisitedPages(site, 1, EffectiveMaxPages(maxPages))
  {
    var bound := EffectiveMaxPages(maxPages);
    var products: seq<Record> := [];
    visited := [];
    var current: nat := 1;
    ghost var harvest := Harvest(site, 1, bound);
    ghost var pages := VisitedPages(site, 1, bound);
    PrependNothing(harvest);
    while current <= bound
      invariant 1 <= current
      invariant harvest == Prepend(products, Harvest(site, current, bound))
      invariant pages == visited + VisitedPages(site, current, bound)
      decreases bound - current
    {
      var page := site(current);
      HarvestStep(site, current, bound);
      ghost var seen := visited;
      visited := visited + [current];
      var appended := AppendPageRecords(products, page.items);
      if appended.None? {
        return Err(ScoreWithoutCount(current)), visited;
      }
      ghost var pageRecords := PageRecords(page.items).value;
      ghost var earlier := products;
      products := appended.value;
      if page.nextDisabled {
        break;
      }
      current := current + 1;
      if !page.nextClickable {
        return Err(NextClickTimeout(current)), visited;
      }
      PrependTwice(earlier, pageRecords, Harvest(site, current, bound));
      AppendAssoc(seen, [current - 1], VisitedPages(site, current, bound));
    }
    if current > bound {
      assert products + [] == products;
      assert visited + [] == visited;
    }
    return Ok(products), visited;
  }

  /** The pages visited are 1, 2, 3, ... in order: the counter starts at the
      first page and rises by exactly one per continued iteration. */
  lemma {:induction false} VisitedConsecutive(site: nat -> Page, page: nat, bound: int)
    ensures forall i :: 0 <= i < |VisitedPages(site, page, bound)| ==> VisitedPages(site, page, bound)[i] == page + i
    decreases bound - page
  {
    if page <= bound {
      var p := site(page);
      if !(PageRecords(p.items).None? || p.nextDisabled || !p.nextClickable) {
        VisitedConsecutive(site, page + 1, bound);
      }
    }
  }

  /** The loop body runs at most `bound - page + 1` times, so from page 1 at
      most `bound` times, even when no disabled button is ever found. */
  lemma {:induction false} VisitedBounded(site: nat -> Page, page: nat, bound: int)
    ensures |VisitedPages(site, page, bound)| <= if bound < page then 0 else bound - page + 1
    decreases bound - page
  {
    if page <= bound {
      var p := site(page);
      if !(PageRecords(p.items).None? || p.nextDisabled || !p.nextClickable) {
        VisitedBounded(site, page + 1, bound);
      }
    }
  }

  /** Every visited page but the last had an enabled, clickable "next"
      button; the last is the bound, a page whose "next" is disabled, or the
      page where the harvest failed. */
  lemma {:induction false} VisitedStops(site: nat -> Page, page: nat, bound: int)
    ensures var v := VisitedPages(site, page, bound);
      && (forall i :: 0 <= i < |v| - 1 ==> !site(v[i]).nextDisabled && site(v[i]).nextClickable)
      && (|v| > 0 ==>
            var last := site(v[|v| - 1]);
            v[|v| - 1] == bound || last.nextDisabled || !last.nextClickable || PageRecords(last.items).None?)
    decreases bound - page
  {
    if page <= bound {
      HarvestStep(site, page, bound);
      var p := site(page);
      var v := VisitedPages(site, page, bound);
      if !(PageRecords(p.items).None? || p.nextDisabled || !p.nextClickable) {
        var rest := VisitedPages(site, page + 1, bound);
        VisitedStops(site, page + 1, bound);
        assert v == [page] + rest;
        forall i | 0 <= i < |v| - 1 ensures !site(v[i]).nextDisabled && site(v[i]).nextClickable {
          if i > 0 {
            assert v[i] == rest[i - 1];
          }
        }
        if rest == [] {
          if page + 1 <= bound {
            HarvestStep(site, page + 1, bound);
          }
        } else {
          assert v[|v| - 1] == rest[|rest| - 1];
        }
      }
    }
  }

  /** All the records of the visited pages, page after page. */
  function RecordsOfPages(site: nat -> Page, pages: seq<nat>): seq<Record> {
    if pages == [] then []
    else
      var first := PageRecords(site(pages[0]).items);
      (if first.Some? then first.value else []) + RecordsOfPages(site, pages[1..])
  }

  /** A successful harvest holds the records of every visited page, in page
      order, including those of the page whose "next" was disabled. */
  lemma {:induction false} HarvestIsVisitedRecords(site: nat -> Page, page: nat, bound: int)
    requires Harvest(site, page, bound).Ok?
    ensures Harvest(site, page, bound).value == RecordsOfPages(site, VisitedPages(site, page, bound))
    decreases bound - page
  {
    if page <= bound {
      var p := site(page);
      var v := VisitedPages(site, page, bound);
      if !p.nextDisabled {
        HarvestIsVisitedRecords(site, page + 1, bound);
        assert v[1..] == VisitedPages(site, page + 1, bound);
      } else {
        assert v == [page];
        assert v[1..] == [];
      }
    }
  }

  // ---------------------------------------------------------------------
  // Report filters

  /** The range of the 64-bit integers `astype(int)` converts to. */
  const Int64Min: int := -0x8000_0000_0000_0000
  const Int64Max: int := 0x7FFF_FFFF_FFFF_FFFF

  /** Why `astype(int)` raises on the review-count column. */
  datatype ReportError = NotAnInteger(token: string) | OutOfInt64(token: string)

  /** The conversion error of the first record whose count does not convert. */
  function FirstBadCount(records: seq<Record>): Option<ReportError> {
    if records == [] then None
    else
      match ParseInt(records[0].count)
      case None => Some(NotAnInteger(records[0].count))
      case Some(n) =>
        if n < Int64Min || n > Int64Max then Some(OutOfInt64(records[0].count))
        else FirstBadCount(records[1..])
  }

  /** `int(count)`; zero stands in for a count that does not convert, which
      only happens where the filters below have already failed. */
  function CountOf(r: Record): int {
    match ParseInt(r.count)
    case Some(n) => n
    case None => 0
  }

  predicate Reviewed(r: Record) { CountOf(r) > 0 }

  predicate Unreviewed(r: Record) { !Reviewed(r) }

  predicate Popular(r: Record) { CountOf(r) >= 100 }

  predicate Unpopular(r: Record) { CountOf(r) < 100 }

  /** `criar_dataframe`: the records whose count is positive, in order, or
      the conversion error when some count is not a 64-bit integer. */
  function KeepReviewed(records: seq<Record>): Result<seq<Record>, ReportError> {
    match FirstBadCount(records)
    case Some(e) => Err(e)
    case None => Ok(Filter(records, Reviewed))
  }

  /** The two sheets `salvar_excel` writes: 100 reviews or more, and fewer. */
  datatype Report = Report(best: seq<Record>, worst: seq<Record>)

  /** `salvar_excel` up to the file writing: the split at 100 reviews. */
  function SplitReport(records: seq<Record>): Result<Report, ReportError> {
    match FirstBadCount(records)
    case Some(e) => Err(e)
    case None => Ok(Report(Filter(records, Popular), Filter(records, Unpopular)))
  }

  /** The filter keeps exactly the records with a positive count, each as
      often as the input holds it, and keeps their order; what it drops has
      no positive count, and its output always converts again. */
  lemma KeepReviewedSpec(records: seq<Record>)
    requires KeepReviewed(records).Ok?
    ensures var kept := KeepReviewed(records).value;
      && (forall r :: r in kept ==> r in records && CountOf(r) > 0)
      && (forall r :: r in records && CountOf(r) > 0 ==> r in kept)
      && FirstBadCount(kept) == None
      && multiset(kept) + multiset(Filter(records, Unreviewed)) == multiset(records)
      && (forall r :: r in Filter(records, Unreviewed) ==> CountOf(r) <= 0)
  {
    var kept := KeepReviewed(records).value;
    FilterPartition(records, Reviewed, Unreviewed);
    forall r | r in records && CountOf(r) > 0 ensures r in kept {
      FilterKeeps(records, Reviewed, r);
    }
    FilterSubset(records, Reviewed);
    GoodCountsStayGood(records, kept);
  }

  /** A filtered sequence only holds elements of its input. */
  lemma {:induction false} FilterSubset<T>(s: seq<T>, p: T -> bool)
    ensures forall x :: x in Filter(s, p) ==> x in s
  {
    if s != [] {
      FilterSubset(s[1..], p);
    }
  }

  lemma {:induction false} FirstBadCountNone(records: seq<Record>)
    ensures FirstBadCount(records) == None <==>
      forall r :: r in records ==> ParseInt(r.count).Some? && Int64Min <= ParseInt(r.count).value <= Int64Max
  {
    if records != [] {
      FirstBadCountNone(records[1..]);
      assert records == [records[0]] + records[1..];
    }
  }

  lemma GoodCountsStayGood(records: seq<Record>, sub: seq<Record>)
    requires FirstBadCount(records) == None
    requires forall r :: r in sub ==> r in records
    ensures FirstBadCount(sub) == None
  {
    FirstBadCountNone(records);
    FirstBadCountNone(sub);
  }

  /** The two groups keep order, are disjoint, and together hold every input
      record exactly as often as the input does. */
  lemma SplitReportSpec(records: seq<Record>)
    requires SplitReport(records).Ok?
    ensures var rep := SplitReport(records).value;
      && (forall r :: r in rep.best ==> CountOf(r) >= 100)
      && (forall r :: r in rep.worst ==> CountOf(r) < 100)
      && multiset(rep.best) + multiset(rep.worst) == multiset(records)
      && multiset(rep.best) !! multiset(rep.worst)
  {
    var rep := SplitReport(records).value;
    FilterPartition(records, Popular, Unpopular);
    assert forall r :: r in rep.best ==> Popular(r);
    assert forall r :: r in rep.worst ==> Unpopular(r);
  }

  /** A record list that passed `criar_dataframe` splits without error. */
  lemma ReviewedSplits(records: seq<Record>)
    requires KeepReviewed(records).Ok?
    ensures SplitReport(KeepReviewed(records).value).Ok?
  {
    KeepReviewedSpec(records);
  }
}
