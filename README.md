# WebScraping-Magalu in Dafny

This is a model of the scraper that collects notebook listings from the
Magazine Luiza store, filters them by how many reviews they have, and mails
the resulting report. It covers three parts of the program:

- **`Scraping`** (`scraping.dfy`): the site reachability retry loop, the
  paginated harvest loop (`extrair_dados`) with its page counter, its
  `max_pages` bound and default, and the per-item record building: the
  review-count token, the URL prefix, and skipping unscored items. It also
  covers the two report filters: keep counts above zero (`criar_dataframe`),
  then split at 100 reviews (`salvar_excel`).
- **`EmailSender`** (`email_sender.dfy`): the `Email` object. Its recipient
  lists and attachment list change in place. `CreateEmail` removes the
  sender and composes the headers, and `SendEmail` attaches the files and
  picks the recipients from the confirmation answer.
- **`WebAutomation`** (`web_automation.dfy`): the `Driver` constructor's
  download-folder normalisation, the browser argument list, and which
  Selenium request and which click `find_by_element` and `click_by_element`
  issue for a given `wait`, `multiple` and `use_js`.

Three support modules hold the Python built-ins the core relies on:
`Common` (`Option`, `Result`), `Strings` (`str.split`, `str.join`,
`str.replace`, `removeprefix`/`removesuffix`, and `int()` on a string), and
`Lists` (`list.remove` and order-keeping filtering).

The browser, the HTML parser, the mail server and the terminal are inputs:

- `loads(k)` says whether the k-th page load succeeds.
- `site(n)` is what result page `n` shows: its items (title, href, optional
  score text), whether its "next" button is disabled, and whether it becomes
  clickable within the wait.
- The SMTP login result and the typed confirmation answer are parameters.
- `pathExists` answers `os.path.exists`.

Python exceptions that escape are explicit error results. These are:

- `IndexError`, for a score text with fewer than two words.
- The click timeout on "next".
- `ValueError` and `OverflowError` from `astype(int)`.
- `FolderNotExistsError`.
- The failures of an e-mail that has no body or no composed message.

## Model

| member | source | states |
|---|---|---|
| `Scraping.VerifyWebsite` | WebScraping/Scraping.py:12-20 | The result is true iff one of the first `tries` loads succeeds. The loop stops at the first success and makes at most `tries` attempts. It makes none, and returns false, when `tries` is not positive. |
| `Scraping.CountToken` | WebScraping/Scraping.py:54 | The review-count token of a score text: its second word with one leading "(" and one trailing ")" removed. There is no token, where Python raises `IndexError`, when the text has fewer than two words. Its properties are proved in the lemmas below. |
| `Scraping.ParseItem` | WebScraping/Scraping.py:47-55 | What the loop body does with one item: skip it without a score span, raise on a score text without a count token, or build the record `[title, token, origin + href]`. `ParseItemSpec` states this. |
| `Scraping.CountTokenOfScore` | WebScraping/Scraping.py:54 | For a score text `<rating> (<count>)`, the token is the count with its parentheses removed. |
| `Scraping.CountTokenExample` | WebScraping/Scraping.py:54 | "4.8 (1234)" gives "1234". |
| `Scraping.CountTokenNeedsTwoWords` | WebScraping/Scraping.py:54 | A one-word score text has no second word, so the indexing raises. |
| `Scraping.ParseItemSpec` | WebScraping/Scraping.py:47-55 | An item is skipped iff it has no score span, and raises iff its score text has no count token. A kept record is the title, the token, and the fixed origin followed by the href verbatim. |
| `Scraping.Collect` | WebScraping/Scraping.py:46-55 | The item loop for any per-item step: records appended in item order, and failure as soon as one item raises. `CollectFails` and `CollectSpec` state this. |
| `Scraping.PageRecords` | WebScraping/Scraping.py:46-55 | The item loop with the program's per-item step. `PageRecordsFails` and `PageRecordsSpec` state what it yields. |
| `Scraping.CollectFails` | WebScraping/Scraping.py:46-55 | The item loop, for any per-item step, succeeds iff no item raises. |
| `Scraping.CollectSpec` | WebScraping/Scraping.py:46-55 | For any per-item step, the records are the kept items in item order, one record per kept item. |
| `Scraping.PageRecordsFails` | WebScraping/Scraping.py:46-55 | A page yields records iff every scored item's text has a count token. |
| `Scraping.PageRecordsSpec` | WebScraping/Scraping.py:46-55 | A page's records correspond one to one, in item order, to its scored items. Unscored items are dropped. |
| `Scraping.PageRecordsSnoc` | WebScraping/Scraping.py:46-55 | Taking one more item applies one step of the loop to the records gathered so far: skip, append its record, or fail. |
| `Scraping.AppendPageRecords` | WebScraping/Scraping.py:46-55 | The inner loop appends exactly the page's records to the list built so far, or fails when an item raises. |
| `Scraping.EffectiveMaxPages` | WebScraping/Scraping.py:36-37 | A missing or zero `max_pages` becomes 100, and any other value is kept, negative ones included. |
| `Scraping.Harvest` | WebScraping/Scraping.py:39-69 | The page loop as a recursion from a page and a bound. `HarvestStep`, `HarvestIsVisitedRecords` and `ExtractData` state its behaviour. |
| `Scraping.VisitedPages` | WebScraping/Scraping.py:39-69 | The pages on which the loop body runs, in order. `VisitedConsecutive`, `VisitedBounded` and `VisitedStops` state what they are. |
| `Scraping.ExtractData` | WebScraping/Scraping.py:33-71 | The imperative loop returns exactly the recursive harvest from page 1 with the bound (100 when `max_pages` is None or 0). Its ghost output is the sequence of pages it ran on. |
| `Scraping.HarvestStep` | WebScraping/Scraping.py:40-69 | One iteration: fail on a raising item, stop and keep the page after a disabled "next", fail when "next" never becomes clickable, otherwise prepend this page's records to the rest. |
| `Scraping.VisitedConsecutive` | WebScraping/Scraping.py:39-63 | The visited pages are `page, page+1, page+2, …`, so from page 1 they are 1, 2, 3, …. |
| `Scraping.VisitedBounded` | WebScraping/Scraping.py:36-40 | The loop body runs at most `bound - page + 1` times, even when no disabled button is ever found. |
| `Scraping.VisitedStops` | WebScraping/Scraping.py:58-64 | Every visited page but the last had an enabled, clickable "next". The last visited page is the bound, a page with a disabled "next", or a page where the harvest failed. |
| `Scraping.HarvestIsVisitedRecords` | WebScraping/Scraping.py:46-60 | A successful harvest is the concatenation, in page order, of the records of every visited page, including the page whose "next" was disabled. |
| `Scraping.KeepReviewed` | WebScraping/Scraping.py:74-77 | `criar_dataframe`: the conversion error of the first count that is not a 64-bit integer, or else the records with a positive count. `KeepReviewedSpec` and `FirstBadCountNone` state this. |
| `Scraping.SplitReport` | WebScraping/Scraping.py:80-82 | `salvar_excel` before the file is written: the conversion error, or else the records with 100 or more reviews and those with fewer. `SplitReportSpec` states this. |
| `Scraping.KeepReviewedSpec` | WebScraping/Scraping.py:74-77 | The kept records are exactly the input records with a positive count, in order. Together with the dropped ones, whose counts are all at most zero, they hold every input record with its multiplicity. The kept counts all convert again. |
| `Scraping.FirstBadCountNone` | WebScraping/Scraping.py:76 | The conversion succeeds iff every count parses as an integer within 64 bits. |
| `Scraping.GoodCountsStayGood` | WebScraping/Scraping.py:76-81 | A selection from records whose counts all convert also converts. |
| `Scraping.SplitReportSpec` | WebScraping/Scraping.py:80-82 | The ≥100 and <100 groups are disjoint and keep their bounds. Together they hold every input record with its multiplicity. |
| `Scraping.ReviewedSplits` | WebScraping/Scraping.py:76-82 | The output of `criar_dataframe` always splits without a conversion error. |
| `Strings.DropSpaces` | WebScraping/Scraping.py:54 | The leading whitespace `split()` skips. The result is a suffix of the input that does not start with whitespace. |
| `Strings.DropSpacesDropsSpaces` | WebScraping/Scraping.py:54 | Only whitespace is skipped: every character before the suffix is whitespace. |
| `Strings.TakeWordMaximal` | WebScraping/Scraping.py:54 | A word ends only at whitespace or at the end of the text. |
| `Strings.Words` | WebScraping/Scraping.py:54 | `str.split()` with no argument: the maximal runs of non-whitespace characters, in order. `WordsAreWords` and `WordsSplitsAtRuns` state this. |
| `Strings.WordsAreWords` | WebScraping/Scraping.py:54 | `split()` yields only non-empty words free of whitespace. |
| `Strings.WordsSplitsAtRuns` | WebScraping/Scraping.py:54 | After the leading whitespace, the first word is a prefix of the text followed by whitespace or by the end, and the remaining words are those of the text after it. |
| `Strings.WordsFirst` | WebScraping/Scraping.py:54 | The first split step: skip the leading whitespace, then take one word. The other words come from what follows that word. |
| `Strings.ParseInt` | WebScraping/Scraping.py:76 | `int()` on a string: optional surrounding whitespace and sign, then ASCII digit groups separated by single underscores. No result where Python raises `ValueError`. `ParseIntOfNumeral` states its round trip. |
| `Strings.ParseIntOfNumeral` | WebScraping/Scraping.py:76 | `int()` reads back the decimal numeral of any natural number. |
| `Strings.ReplaceChar` | WebScraping/Objects/Obj_WebAutomation.py:61 | `replace` of one character by another: the length is kept, and each position holds the replacement exactly where it held the replaced character. |
| `Strings.ReplaceCharIdempotent` | WebScraping/Objects/Obj_WebAutomation.py:61 | After `replace('/', '\\')` no '/' remains, and replacing again changes nothing. |
| `Strings.Join` | WebScraping/Objects/Obj_EmailSender.py:48-50 | `sep.join(parts)`. `JoinLength` and `JoinPlacesPart` state its length and where each part sits. |
| `Strings.JoinLength` | WebScraping/Objects/Obj_EmailSender.py:48-50 | A joined header is as long as all its parts together plus one separator per adjacent pair. |
| `Strings.JoinPlacesPart` | WebScraping/Objects/Obj_EmailSender.py:48-50 | Each address sits in the joined header between the join of the addresses before it and the join of those after it, with one separator on each side. The first and last addresses are the ends, and a single address is the header itself. |
| `Strings.JoinAppend` | WebScraping/Objects/Obj_EmailSender.py:48-50 | Joining two lists end to end equals joining each, with a separator between them. |
| `Lists.RemoveFirst` | WebScraping/Objects/Obj_EmailSender.py:38-42 | `list.remove` behind its `if x in list` guard. `RemoveFirstSpec` and `RemoveFirstCount` state what it removes. |
| `Lists.RemoveFirstAbsent` | WebScraping/Objects/Obj_EmailSender.py:38-42 | When the element is absent the guard skips the removal and the list is unchanged. |
| `Lists.RemoveFirstPresent` | WebScraping/Objects/Obj_EmailSender.py:38-42 | When the element is present, exactly its first occurrence is cut out, and the elements before and after it keep their order. |
| `Lists.RemoveFirstSpec` | WebScraping/Objects/Obj_EmailSender.py:38-42 | `remove` deletes only the first occurrence and keeps everything else in order. A list without the element is unchanged. |
| `Lists.RemoveFirstCount` | WebScraping/Objects/Obj_EmailSender.py:38-42 | Exactly one copy goes when there is one, and the length drops by one. |
| `Lists.Filter` | WebScraping/Scraping.py:76 | A boolean-mask row selection: no more rows than the input, and every kept row satisfies the mask. |
| `Lists.FilterAppend` | WebScraping/Scraping.py:76 | A row selection distributes over concatenation, so row order is kept. |
| `Lists.FilterKeeps` | WebScraping/Scraping.py:76 | No row that satisfies the mask is lost. |
| `Lists.FilterPartition` | WebScraping/Scraping.py:81-82 | Complementary masks split the rows into two parts that together hold every row with its multiplicity. |
| `EmailSender.Email.constructor` | WebScraping/Objects/Obj_EmailSender.py:15-35 | `subject` is the title. The recipient and attachment lists are empty, apart from `bcc`, which holds the placeholder sender. The server settings hold their placeholders and port 587. |
| `EmailSender.Email.CreateEmail` | WebScraping/Objects/Obj_EmailSender.py:37-53 | The first copy of the sender is removed from `destination` and from `cc`, and `bcc` is untouched. The message is composed from the edited lists. Without a body it raises and stores no message. |
| `EmailSender.Email.AddAttachment` | WebScraping/Objects/Obj_EmailSender.py:55-68 | Exactly one descriptor `{path, name, main_type, sub_type}` is appended at the end. `main_type` defaults to "application". |
| `EmailSender.Email.AttachFiles` | WebScraping/Objects/Obj_EmailSender.py:116-123 | Every descriptor is added to the composed message in list order. Without a message it raises iff the list is non-empty. |
| `EmailSender.Email.SendEmail` | WebScraping/Objects/Obj_EmailSender.py:83-114 | The files are attached first. The outcome is then the dispatch decision for the current fields. |
| `EmailSender.Compose` | WebScraping/Objects/Obj_EmailSender.py:44-53 | The message `create_email` builds: the sender, the subject, `To` and `Cc` joined from the lists with ", ", `Bcc` joined from `cc`, the HTML body, and no files yet. `ComposedHeaders` states this. |
| `EmailSender.Confirms` | WebScraping/Objects/Obj_EmailSender.py:95 | The answer's upper-case form is "S": the answers "s", "S" and "ſ". |
| `EmailSender.Recipients` | WebScraping/Objects/Obj_EmailSender.py:86-114 | The address list `sendmail` gets: all three lists on a confirmed answer, none on any other answer, and `destination` alone without confirmation. `RecipientsSpec` states this. |
| `EmailSender.Dispatch` | WebScraping/Objects/Obj_EmailSender.py:86-114 | How `send_email` ends once the files are attached: rejected login, declined answer, missing message, or the message sent. `DispatchSends` states when each happens. |
| `EmailSender.SelfRemoval` | WebScraping/Objects/Obj_EmailSender.py:38-42 | A single copy of the sender disappears and a second copy survives. Other addresses keep their counts. |
| `EmailSender.ComposedHeaders` | WebScraping/Objects/Obj_EmailSender.py:45-50 | `From` is the sender and `Subject` the subject. The `Bcc` header equals the `Cc` header, whatever `bcc` holds. `To` joins the remaining destinations with ", ". |
| `EmailSender.RecipientsSpec` | WebScraping/Objects/Obj_EmailSender.py:91-110 | Under confirmation the recipients are every address of `destination`, `cc` and `bcc`, as a multiset union, and only when the answer upper-cases to "S". Without confirmation the recipients are `destination` only. |
| `EmailSender.DispatchSends` | WebScraping/Objects/Obj_EmailSender.py:86-114 | A message is sent iff the login succeeds, the message was composed, and either no confirmation is asked or the answer confirms. A declined answer sends nothing. |
| `WebAutomation.NormalizeFolder` | WebScraping/Objects/Obj_WebAutomation.py:61-63 | The stored download folder: every '/' turned into '\', then one '\' appended unless it already ends with one. `NormalizeFolderSpec` states this. |
| `WebAutomation.NormalizeFolderSpec` | WebScraping/Objects/Obj_WebAutomation.py:61-63 | The stored path has no '/' and ends with '\'. Every other character is kept in place. One '\' is added iff the input ended in neither separator. |
| `WebAutomation.NormalizeFolderIdempotent` | WebScraping/Objects/Obj_WebAutomation.py:61-63 | Normalising a normalised folder returns it unchanged. |
| `WebAutomation.NewDriver` | WebScraping/Objects/Obj_WebAutomation.py:53-64 | A missing folder raises `FolderNotExistsError` and sets nothing. A falsy folder sets nothing. Any other folder is stored normalised. |
| `WebAutomation.OptionArguments` | WebScraping/Objects/Obj_WebAutomation.py:77-88 | The argument list for a browser with or without a window. `OptionArgumentsSpec` states its contents. |
| `WebAutomation.ChromeOptions.AddArgument` | WebScraping/Objects/Obj_WebAutomation.py:78-88 | Each argument is appended at the end of the list. |
| `WebAutomation.BrowserOptions` | WebScraping/Objects/Obj_WebAutomation.py:66-90 | The successive appends build exactly the argument list for the window mode. |
| `WebAutomation.OptionArgumentsSpec` | WebScraping/Objects/Obj_WebAutomation.py:77-88 | The list starts with the log-level and maximise flags. Headless mode adds six more. Sandbox and GPU switches appear only in headless mode. |
| `WebAutomation.FindPlan` | WebScraping/Objects/Obj_WebAutomation.py:133-150 | The request `find_by_element` makes: a presence wait with one-second polling and the listed ignored exceptions when `wait` is truthy, or else an XPath lookup of all matches or of the first. |
| `WebAutomation.ClickPlan` | WebScraping/Objects/Obj_WebAutomation.py:177-190 | The request and the click `click_by_element` makes: a clickability wait with Selenium's defaults and a script or native click when `wait` is truthy, or else a plain lookup by the selector and a native click. |
| `WebAutomation.FindPlanSelector` | WebScraping/Objects/Obj_WebAutomation.py:133-150 | With a wait, the lookup waits for presence with the caller's selector, polling every second, and ignores `multiple`. Without a wait the selector is ignored and the lookup is by XPath. |
| `WebAutomation.ClickPlanKind` | WebScraping/Objects/Obj_WebAutomation.py:177-190 | The click is by script iff there is a wait and `use_js`. Without a wait `use_js` is ignored. The caller's selector is used either way. |
| `WebAutomation.Locate` | WebScraping/Objects/Obj_WebAutomation.py:133-150 | What a request returns on a page that does not change: all matches, or the first match. With no match it is an error, a timeout for a wait. |
| `WebAutomation.LocateWithAndWithoutWait` | WebScraping/Objects/Obj_WebAutomation.py:134-150 | On an unchanging page, an XPath lookup finds the same single element with or without a wait. A lookup of all matches never fails. |

## Left out

- Selenium itself is not modelled: `WebDriverWait`, `find_element(s)`, `execute_script` and `Chrome(...)`. A lookup is the request it makes, and its outcome is an input.
- `new_driver` is not modelled. It is a try/except around two foreign constructors.
- `getDownLoadedFileName` is not modelled. It depends on the wall clock, `sleep` and script results from the downloads page.
- `save_page_as_pdf` is not modelled. It only forwards keyword arguments to a foreign class.
- `search_product`, `enviar_email` and `main` are not modelled. They only set fields and call the modelled operations in order.
- HTML parsing is not modelled. A page is its list of items. A missing product list, title or link raises `AttributeError` in the program, and the model does not represent that case.
- The URL barrier (`while 'page=…' not in current_url: sleep(2)`), every `sleep` and every `print` are left out. They are waits on external state and console output.
- Writing the Excel file and the log file is left out, as is `quit()`.
- SMTP is left out: the connection, `starttls` and a failure to connect. The login outcome is a parameter.
- The `input()` prompt is a parameter.
- Reading attachment files is not modelled. A descriptor stands for its file.
- `add_image` is left out. It reads an image file through PIL.
- Scraping.ExtractData: the disabled-"next" lookup is an input. In the program, any exception from that lookup counts as "not disabled", and the model does not separate the causes.
- Strings.ParseInt: accepts only ASCII digits, with optional underscores between digit groups. Python's `int()` also accepts other Unicode decimal digits.
- EmailSender.Email.SendEmail: `sendmail` failures other than a rejected login are not modelled.
- EmailSender.Email.CreateEmail: `destination` is a value here. `enviar_email` assigns the caller's list to it, so `remove` also edits the caller's list, and the model does not capture that aliasing.

The model keeps these quirks of the code:

- The constructor appends the *placeholder* sender to `bcc` before any caller can set the real sender. A report sent the way `enviar_email` sends it therefore blind-copies the placeholder address (`EmailSender.Email.constructor`).
- The `Bcc` header is built from `cc`, not from `bcc` (`EmailSender.ComposedHeaders`).
- On a page whose "next" is enabled, the loop clicks "next" before it re-checks the bound. So the click, and its timeout, happen even on the last page the bound allows (`Scraping.HarvestStep`).
- A confirmation answer counts when its upper-case form is "S". Besides "s" and "S" that includes the long s "ſ" (`EmailSender.RecipientsSpec`).
