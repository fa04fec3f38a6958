/**
  The maintenance redirect shared by the department pages, 404.html and the
  error page (redirect.js). On load the script reads its configuration,
  the `web` key of its own script tag and the page's location, and then
  does one of four things: nothing; close the doors and send the visitor
  to the error page; show a maintenance message and open the doors; or send
  the visitor back to the page they came from.
*/
module Redirect {
  import opened Wrappers
  import opened JsObjects

  /** One department: its `web` key, the URL prefix of its pages, and
      whether it is open. */
  datatype Section = Section(name: string, rootURL: string, open: bool)

  /** The `config` block; `errorPath` is the path part of `errorPage`.
      `sections` lists the departments in the order they are written. */
  datatype Config = Config(
    paramKey: string,
    errorPage: string,
    errorPath: string,
    globalClose: bool,
    sections: seq<Section>)

  /** What the script reads from the page: the `web` key of its script tag
      and the page's `from` parameter (each absent or a string), the last
      segment of the page's path, and the full page URL. */
  datatype Page = Page(sectionKey: Option<string>, fromParam: Option<string>, pageName: string, fullURL: string)

  datatype Action =
    | NoAction
      /** Close the doors, then replace the page by `errorPage` with the
          parameter `param` set to `from`. */
    | CloseAndRedirect(errorPage: string, param: string, from: string)
      /** Show `message` and open the doors. */
    | OpenDoors(message: string)
      /** Show `message`, then replace the page by `url`. */
    | ReturnTo(url: string, message: string)

  const DefaultNotice := "Camcookie is under Maintenance."

  /** `sections[key]` among the configured departments. */
  function SectionNamed(sections: seq<Section>, key: string): (found: Option<Section>)
    ensures found.Some? <==> exists i :: 0 <= i < |sections| && sections[i].name == key
    ensures found.Some? ==> found.value in sections && found.value.name == key
  {
    if sections == [] then None
    else if sections[0].name == key then Some(sections[0])
    else
      var rest := SectionNamed(sections[1..], key);
      assert forall i :: 0 < i < |sections| ==> sections[i] == sections[1..][i - 1];
      rest
  }

  /** `path.split("/").pop()`: what follows the last slash, or the whole
      path if it has none. */
  function LastSegment(path: string): (seg: string)
    ensures '/' !in seg
    ensures |seg| <= |path| && path[|path| - |seg|..] == seg
    ensures |seg| < |path| ==> path[|path| - |seg| - 1] == '/'
  {
    if path == [] then []
    else if path[|path| - 1] == '/' then []
    else
      var init := LastSegment(path[..|path| - 1]);
      assert path[..|path| - 1][|path| - 1 - |init|..] == path[|path| - 1 - |init|..|path| - 1];
      init + [path[|path| - 1]]
  }

  /** The first department, from index i on, whose root URL is a prefix
      of `url`. */
  function FirstMatchFrom(sections: seq<Section>, url: string, i: nat): (m: Option<nat>)
    requires i <= |sections|
    ensures m.Some? ==> i <= m.value < |sections| && sections[m.value].rootURL <= url
    ensures m.Some? ==> forall j :: i <= j < m.value ==> !(sections[j].rootURL <= url)
    ensures m.None? ==> forall j :: i <= j < |sections| ==> !(sections[j].rootURL <= url)
    decreases |sections| - i
  {
    if i == |sections| then None
    else if sections[i].rootURL <= url then Some(i)
    else FirstMatchFrom(sections, url, i + 1)
  }

  function FirstMatch(sections: seq<Section>, url: string): Option<nat> {
    FirstMatchFrom(sections, url, 0)
  }

  /** The first match is the least matching index. */
  lemma FirstMatchIsLeast(sections: seq<Section>, url: string, i: int)
    requires 0 <= i < |sections| && sections[i].rootURL <= url
    requires forall j :: 0 <= j < i ==> !(sections[j].rootURL <= url)
    ensures FirstMatch(sections, url) == Some(i)
  {
  }

  function Upper(c: char): char {
    if 'a' <= c <= 'z' then (c as int - 32) as char else c
  }

  /** `name.charAt(0).toUpperCase() + name.slice(1)`. */
  function Capitalize(name: string): (capped: string)
    ensures |capped| == |name|
    ensures name != [] ==> capped[0] == Upper(name[0]) && capped[1..] == name[1..]
  {
    if name == [] then [] else [Upper(name[0])] + name[1..]
  }

  function Notice(name: string): string {
    "Camcookie " + Capitalize(name) + " is under maintenance."
  }

  /** `fromParam || fullURL`: the page to return to. */
  function OriginalURL(page: Page): string {
    if page.fromParam.Some? && page.fromParam.value != "" then page.fromParam.value else page.fullURL
  }

  /** The department the message names: the first whose root URL prefixes
      the original URL, looked for only when `globalClose` is set. */
  function Matched(cfg: Config, page: Page): Option<nat> {
    if cfg.globalClose then FirstMatch(cfg.sections, OriginalURL(page)) else None
  }

  function Message(cfg: Config, page: Page): string {
    var m := Matched(cfg, page);
    if m.Some? then Notice(cfg.sections[m.value].name) else DefaultNotice
  }

  /** The script tag names a department. */
  predicate OnDepartmentPage(page: Page) {
    page.sectionKey.Some? && page.sectionKey.value != ""
  }

  /** The page is the error page or 404.html. */
  predicate OnErrorPage(cfg: Config, page: Page) {
    page.pageName == LastSegment(cfg.errorPath) || page.pageName == "404.html"
  }

  /** What the script does, when the `web` key is looked up among the
      configured departments only. */
  function Decide(cfg: Config, page: Page): (act: Action)
    ensures act.CloseAndRedirect? ==>
              OnDepartmentPage(page) && act == CloseAndRedirect(cfg.errorPage, cfg.paramKey, page.fullURL)
    ensures act.OpenDoors? || act.ReturnTo? ==> !OnDepartmentPage(page) && OnErrorPage(cfg, page)
    ensures act.ReturnTo? ==> cfg.globalClose && act.url == OriginalURL(page)
    ensures !OnDepartmentPage(page) && !OnErrorPage(cfg, page) ==> act.NoAction?
  {
    if OnDepartmentPage(page) then
      match SectionNamed(cfg.sections, page.sectionKey.value)
      case None => NoAction
      case Some(sec) =>
        if !cfg.globalClose || !sec.open then CloseAndRedirect(cfg.errorPage, cfg.paramKey, page.fullURL)
        else NoAction
    else if OnErrorPage(cfg, page) then
      var m := Matched(cfg, page);
      if m.Some? && cfg.sections[m.value].name != "" && cfg.sections[m.value].open
      then ReturnTo(OriginalURL(page), Message(cfg, page))
      else OpenDoors(Message(cfg, page))
    else NoAction
  }

  /** What the script does as written: `sections[key]` also finds the
      inherited names, and such a value has no `open` flag, so the page is
      redirected. */
  function DecideAsWritten(cfg: Config, page: Page): (act: Action)
    ensures act != Decide(cfg, page) ==>
              && OnDepartmentPage(page) && page.sectionKey.value in InheritedNames
              && SectionNamed(cfg.sections, page.sectionKey.value).None?
              && act == CloseAndRedirect(cfg.errorPage, cfg.paramKey, page.fullURL)
  {
    if OnDepartmentPage(page) && SectionNamed(cfg.sections, page.sectionKey.value).None?
       && page.sectionKey.value in InheritedNames
    then CloseAndRedirect(cfg.errorPage, cfg.paramKey, page.fullURL)
    else Decide(cfg, page)
  }

  /** The message loop of the error-page branch: the default message,
      replaced by the first matching department's when `globalClose` is
      set. */
  method MaintenanceNotice(cfg: Config, originalURL: string) returns (message: string, matched: Option<nat>)
    ensures matched == (if cfg.globalClose then FirstMatch(cfg.sections, originalURL) else None)
    ensures matched.Some? ==> matched.value < |cfg.sections| && message == Notice(cfg.sections[matched.value].name)
    ensures matched.None? ==> message == DefaultNotice
  {
    message := DefaultNotice;
    matched := None;
    if cfg.globalClose {
      var i := 0;
      while i < |cfg.sections|
        invariant 0 <= i <= |cfg.sections|
        invariant FirstMatch(cfg.sections, originalURL) == FirstMatchFrom(cfg.sections, originalURL, i)
        invariant matched == None && message == DefaultNotice
      {
        if cfg.sections[i].rootURL <= originalURL {
          matched := Some(i);
          message := Notice(cfg.sections[i].name);
          return;
        }
        i := i + 1;
      }
    }
  }

  /** A `web` key that names no department and no inherited name leaves
      the page alone; in the corrected rule, no unknown key does anything. */
  lemma UnknownKeyDoesNothing(cfg: Config, page: Page)
    requires OnDepartmentPage(page)
    requires forall i :: 0 <= i < |cfg.sections| ==> cfg.sections[i].name != page.sectionKey.value
    ensures Decide(cfg, page) == NoAction
    ensures page.sectionKey.value !in InheritedNames ==> DecideAsWritten(cfg, page) == NoAction
  {
  }

  /** The counterexample: whatever the configuration, a department page
      whose script tag says `web=toString` is sent to the error page, though
      no department has that name. */
  lemma InheritedKeyRedirects(cfg: Config, page: Page)
    requires page.sectionKey == Some("toString")
    requires forall i :: 0 <= i < |cfg.sections| ==> cfg.sections[i].name != "toString"
    ensures DecideAsWritten(cfg, page) == CloseAndRedirect(cfg.errorPage, cfg.paramKey, page.fullURL)
    ensures Decide(cfg, page) == NoAction
  {
    assert "toString" in InheritedNames;
  }

  /** For a configured department the page is redirected exactly when
      `globalClose` is off or the department is closed, so with
      `globalClose` off every department redirects; the target is the error
      page carrying the full current URL. The department branch never
      falls through to the error-page branch. */
  lemma DepartmentRedirectRule(cfg: Config, page: Page, sec: Section)
    requires OnDepartmentPage(page)
    requires SectionNamed(cfg.sections, page.sectionKey.value) == Some(sec)
    ensures Decide(cfg, page).CloseAndRedirect? <==> !cfg.globalClose || !sec.open
    ensures Decide(cfg, page).CloseAndRedirect? ==>
              Decide(cfg, page) == CloseAndRedirect(cfg.errorPage, cfg.paramKey, page.fullURL)
    ensures Decide(cfg, page) == DecideAsWritten(cfg, page)
    ensures Decide(cfg, page).NoAction? || Decide(cfg, page).CloseAndRedirect?
  {
  }

  /** The error-page actions happen exactly on the error page or
      404.html, and only when no department key is given. */
  lemma ErrorBranchOnlyOnErrorPages(cfg: Config, page: Page)
    ensures (Decide(cfg, page).OpenDoors? || Decide(cfg, page).ReturnTo?)
            <==> !OnDepartmentPage(page) && OnErrorPage(cfg, page)
  {
  }

  /** On the error page the message is the default one unless
      `globalClose` is set and some department's root URL prefixes the
      original URL, and then the doors open. */
  lemma ErrorPageDefault(cfg: Config, page: Page)
    requires !OnDepartmentPage(page) && OnErrorPage(cfg, page)
    requires !cfg.globalClose || forall j :: 0 <= j < |cfg.sections| ==> !(cfg.sections[j].rootURL <= OriginalURL(page))
    ensures Decide(cfg, page) == OpenDoors(DefaultNotice)
  {
  }

  /** With `globalClose` set, the message names the first department whose
      root URL prefixes the original URL, capitalised; the page returns to
      the original URL exactly when that department is open (and its name
      is not the empty string, which is falsy). */
  lemma ErrorPageNamesFirstMatch(cfg: Config, page: Page, i: int)
    requires !OnDepartmentPage(page) && OnErrorPage(cfg, page) && cfg.globalClose
    requires 0 <= i < |cfg.sections| && cfg.sections[i].rootURL <= OriginalURL(page)
    requires forall j :: 0 <= j < i ==> !(cfg.sections[j].rootURL <= OriginalURL(page))
    ensures Decide(cfg, page) == if cfg.sections[i].name != "" && cfg.sections[i].open
                                 then ReturnTo(OriginalURL(page), Notice(cfg.sections[i].name))
                                 else OpenDoors(Notice(cfg.sections[i].name))
  {
    FirstMatchIsLeast(cfg.sections, OriginalURL(page), i);
    assert Matched(cfg, page) == Some(i);
  }

  /** The page returns only when `globalClose` is set and some open
      department's root URL prefixes the original URL, and it returns to
      the `from` parameter when that is present and not empty, and to the
      page's own URL otherwise. */
  lemma ReturnTargetRule(cfg: Config, page: Page)
    ensures Decide(cfg, page).ReturnTo? && page.fromParam.Some? && page.fromParam.value != "" ==>
              Decide(cfg, page).url == page.fromParam.value
    ensures Decide(cfg, page).ReturnTo? && (page.fromParam.None? || page.fromParam == Some("")) ==>
              Decide(cfg, page).url == page.fullURL
    ensures Decide(cfg, page).ReturnTo? ==> cfg.globalClose
    ensures Decide(cfg, page).ReturnTo? ==>
              exists i :: 0 <= i < |cfg.sections| && cfg.sections[i].open && cfg.sections[i].rootURL <= Decide(cfg, page).url
  {
    if Decide(cfg, page).ReturnTo? {
      var m := Matched(cfg, page);
      assert m.Some? && cfg.sections[m.value].open;
      assert cfg.sections[m.value].rootURL <= OriginalURL(page);
    }
  }
}
