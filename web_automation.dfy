/** The browser-driver wrapper: normalisation of the download folder, the
    browser argument list, and which Selenium lookup and which click the two
    element helpers issue for given arguments.

    The browser is not modelled. A lookup is described by the request it
    makes; `Locate` gives its result on a page that does not change while it
    is searched, with the matching elements as an input. */
module WebAutomation {
  import opened Common
  import opened Strings

  /** Selenium's locator strategies (`By.XPATH`, `By.ID`, ...). */
  datatype Selector = XPath | Id | Name | TagName | CssSelector | ClassName

  // ---------------------------------------------------------------------
  // Download folder

  /** Python truthiness of an optional string: `None` and "" are false. */
  predicate IsTruthy(s: Option<string>) {
    s.Some? && s.value != []
  }

  /** The folder as stored: every '/' turned into '\', then one '\' appended
      unless it already ends with one. */
  function NormalizeFolder(folder: string): string
    requires folder != []
  {
    var converted := ReplaceChar(folder, '/', '\\');
    if converted[|converted| - 1] != '\\' then converted + "\\" else converted
  }

  /** The stored path has no '/', ends with '\', and starts with the input
      with its separators converted; the '\' is added exactly when the
      converted input lacked it, so the length grows by at most one. */
  lemma NormalizeFolderSpec(folder: string)
    requires folder != []
    ensures var r := NormalizeFolder(folder);
      && '/' !in r
      && r[|r| - 1] == '\\'
      && (forall i :: 0 <= i < |folder| ==> r[i] == (if folder[i] == '/' then '\\' else folder[i]))
      && (|r| == |folder| + 1 <==> folder[|folder| - 1] != '/' && folder[|folder| - 1] != '\\')
      && (|r| == |folder| <==> folder[|folder| - 1] == '/' || folder[|folder| - 1] == '\\')
  {
    ReplaceCharIdempotent(folder, '/', '\\');
  }

  /** Normalising a normalised folder changes nothing. */
  lemma NormalizeFolderIdempotent(folder: string)
    requires folder != []
    ensures NormalizeFolder(NormalizeFolder(folder)) == NormalizeFolder(folder)
  {
    var r := NormalizeFolder(folder);
    NormalizeFolderSpec(folder);
    NoSlashUnchanged(r);
  }

  /** Replacing '/' in a string without one returns the string itself. */
  lemma NoSlashUnchanged(s: string)
    requires '/' !in s
    ensures ReplaceChar(s, '/', '\\') == s
  {
    var r := ReplaceChar(s, '/', '\\');
    assert forall i :: 0 <= i < |s| ==> r[i] == s[i];
  }

  /** The exception the constructor raises for a folder that does not exist. */
  datatype DriverError = FolderNotExists(folder: string)

  class Driver {
    /** `None` while the attribute was never assigned. */
    var downloadFolder: Option<string>

    constructor()
      ensures downloadFolder == None
    {
      downloadFolder := None;
    }
  }

  /** `Driver(download_folder)`: a falsy folder leaves the attribute unset,
      a folder for which `pathExists` is false raises before anything is set,
      and any other folder is stored normalised. */
  method NewDriver(downloadFolder: Option<string>, pathExists: string -> bool) returns (r: Result<Driver, DriverError>)
    ensures r.Err? <==> IsTruthy(downloadFolder) && !pathExists(downloadFolder.value)
    ensures r.Err? ==> r.error == FolderNotExists(downloadFolder.value)
    ensures r.Ok? ==> fresh(r.value)
    ensures r.Ok? && !IsTruthy(downloadFolder) ==> r.value.downloadFolder == None
    ensures r.Ok? && IsTruthy(downloadFolder) ==> r.value.downloadFolder == Some(NormalizeFolder(downloadFolder.value))
  {
    if IsTruthy(downloadFolder) {
      var folder := downloadFolder.value;
      if !pathExists(folder) {
        return Err(FolderNotExists(folder));
      }
      folder := ReplaceChar(folder, '/', '\\');
      if folder[|folder| - 1] != '\\' {
        folder := folder + "\\";
      }
      var d := new Driver();
      d.downloadFolder := Some(folder);
      return Ok(d);
    }
    var d := new Driver();
    return Ok(d);
  }

  // ---------------------------------------------------------------------
  // Browser options

  /** The arguments every browser gets. */
  const BaseArguments: seq<string> := ["--log-level=3", "--start-maximized"]

  /** The arguments added in headless mode, in order. */
  const HeadlessArguments: seq<string> := [
    "--headless", "--no-sandbox", "--disable-gpu", "enable-automation",
    "--window-size=1420,1080", "--disable-features=VizDisplayCompositor"]

  /** The argument list for a browser with or without a window. */
  function OptionArguments(noWindow: bool): seq<string> {
    if noWindow then BaseArguments + HeadlessArguments else BaseArguments
  }

  /** A browser-options object: an argument list that only grows. */
  class ChromeOptions {
    var arguments: seq<string>

    constructor()
      ensures arguments == []
    {
      arguments := [];
    }

    method AddArgument(argument: string)
      modifies this
      ensures arguments == old(arguments) + [argument]
    {
      arguments := arguments + [argument];
    }
  }

  /** `__options__`: builds the options by successive appends. */
  method BrowserOptions(noWindow: bool) returns (options: ChromeOptions)
    ensures fresh(options)
    ensures options.arguments == OptionArguments(noWindow)
  {
    options := new ChromeOptions();
    options.AddArgument("--log-level=3");
    options.AddArgument("--start-maximized");
    if noWindow {
      options.AddArgument("--headless");
      options.AddArgument("--no-sandbox");
      options.AddArgument("--disable-gpu");
      options.AddArgument("enable-automation");
      options.AddArgument("--window-size=1420,1080");
      options.AddArgument("--disable-features=VizDisplayCompositor");
    }
  }

  /** The list starts with the two base arguments; headless mode adds six
      more and is the only mode with the sandbox and GPU switches. */
  lemma OptionArgumentsSpec(noWindow: bool)
    ensures var args := OptionArguments(noWindow);
      && args[..2] == ["--log-level=3", "--start-maximized"]
      && |args| == (if noWindow then 8 else 2)
      && ("--headless" in args <==> noWindow)
      && ("--no-sandbox" in args <==> noWindow)
      && ("--disable-gpu" in args <==> noWindow)
  {
    var args := OptionArguments(noWindow);
    if noWindow {
      assert args[2] == "--headless" && args[3] == "--no-sandbox" && args[4] == "--disable-gpu";
    }
  }

  // ---------------------------------------------------------------------
  // Lookup and click dispatch

  /** Python truthiness of an optional number of seconds. */
  predicate WaitIsTruthy(wait: Option<real>) {
    wait.Some? && wait.value != 0.0
  }

  /** The exceptions a wait can be told to ignore while it polls. */
  datatype SeleniumError =
    NoSuchElement | ElementNotVisible | ElementNotSelectable | ElementNotInteractable | ElementClickIntercepted

  /** A `WebDriverWait`: its timeout, its polling period, and the exceptions
      it ignores (Selenium always ignores `NoSuchElement` and adds the ones
      the caller lists). */
  datatype WaitPolicy = WaitPolicy(timeout: real, pollSeconds: real, ignored: set<SeleniumError>)

  /** Selenium's default polling period. */
  const DefaultPoll: real := 0.5

  /** The condition a wait polls for. */
  datatype Condition = PresenceOf | Clickable

  /** The request a helper sends to the browser. */
  datatype Lookup =
    | WaitFor(policy: WaitPolicy, condition: Condition, selector: Selector, locator: string)
    | FindAll(selector: Selector, locator: string)
    | FindFirst(selector: Selector, locator: string)

  /** How the element is clicked. */
  datatype ClickKind = ScriptClick | NativeClick

  /** `find_by_element`'s branch: with a truthy wait, a presence wait using
      the caller's selector with one-second polling; otherwise an XPath
      lookup of all matches or of the first one. */
  function FindPlan(element: string, selector: Selector, wait: Option<real>, multiple: bool): Lookup {
    if WaitIsTruthy(wait) then
      WaitFor(WaitPolicy(wait.value, 1.0,
                         {NoSuchElement, ElementNotVisible, ElementNotSelectable,
                          ElementNotInteractable, ElementClickIntercepted}),
              PresenceOf, selector, element)
    else if multiple then FindAll(XPath, element)
    else FindFirst(XPath, element)
  }

  /** `click_by_element`'s branch: with a truthy wait, a clickability wait
      with Selenium's defaults, then a script click or a native one; without
      a wait, a plain lookup by the selector and a native click. */
  function ClickPlan(xPath: string, selector: Selector, wait: Option<real>, useJs: bool): (Lookup, ClickKind) {
    if WaitIsTruthy(wait) then
      (WaitFor(WaitPolicy(wait.value, DefaultPoll, {NoSuchElement}), Clickable, selector, xPath),
       if useJs then ScriptClick else NativeClick)
    else (FindFirst(selector, xPath), NativeClick)
  }

  /** Without a wait the caller's selector plays no part in the lookup, which
      is by XPath; with a wait the selector is the one used and `multiple`
      plays no part. */
  lemma FindPlanSelector(element: string, selector: Selector, other: Selector, wait: Option<real>, multiple: bool)
    ensures FindPlan(element, selector, wait, multiple).selector == (if WaitIsTruthy(wait) then selector else XPath)
    ensures FindPlan(element, selector, wait, multiple).locator == element
    ensures !WaitIsTruthy(wait) ==> FindPlan(element, selector, wait, multiple) == FindPlan(element, other, wait, multiple)
    ensures WaitIsTruthy(wait) ==> FindPlan(element, selector, wait, multiple) == FindPlan(element, selector, wait, !multiple)
    ensures FindPlan(element, selector, wait, multiple).WaitFor? ==>
      FindPlan(element, selector, wait, multiple).policy.pollSeconds == 1.0
  {
  }

  /** The script click happens exactly with a truthy wait and `useJs`; without
      a wait `useJs` plays no part, and the selector is always the caller's. */
  lemma ClickPlanKind(xPath: string, selector: Selector, wait: Option<real>, useJs: bool)
    ensures ClickPlan(xPath, selector, wait, useJs).1 == ScriptClick <==> WaitIsTruthy(wait) && useJs
    ensures !WaitIsTruthy(wait) ==> ClickPlan(xPath, selector, wait, useJs) == ClickPlan(xPath, selector, wait, !useJs)
    ensures ClickPlan(xPath, selector, wait, useJs).0.selector == selector
    ensures ClickPlan(xPath, selector, wait, useJs).0.locator == xPath
  {
  }

  /** Why a lookup yields nothing: no element matched at once, or none
      appeared before the wait's timeout. */
  datatype LookupError = ElementMissing | WaitTimedOut

  /** What a lookup returns on a page whose matches do not change while it
      is searched; `matches(s, l)` lists the elements `(s, l)` matches in
      document order. A presence wait returns the first match. */
  function Locate<E>(lookup: Lookup, matches: (Selector, string) -> seq<E>): Result<seq<E>, LookupError> {
    var found := matches(lookup.selector, lookup.locator);
    match lookup
    case FindAll(_, _) => Ok(found)
    case _ => if found == [] then Err(if lookup.WaitFor? then WaitTimedOut else ElementMissing) else Ok([found[0]])
  }

  /** On a page that does not change, an XPath lookup finds the same element
      with and without a wait, and fails in both cases when nothing matches;
      only a lookup of all matches can succeed with no element. */
  lemma LocateWithAndWithoutWait<E>(element: string, wait: Option<real>, matches: (Selector, string) -> seq<E>)
    ensures var waited := Locate(FindPlan(element, XPath, wait, false), matches);
      var direct := Locate(FindPlan(element, XPath, None, false), matches);
      && waited.Ok? == direct.Ok?
      && (waited.Ok? ==> waited.value == direct.value && |waited.value| == 1)
    ensures Locate(FindPlan(element, XPath, None, true), matches).Ok?
  {
  }
}
