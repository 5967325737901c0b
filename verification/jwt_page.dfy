/**
 * The JWT page's handlers (`input`, save click, clear click) as a state
 * machine over the input text, the "Invalid JWT" flag, the save button's
 * enabled state, `currentInput`, the saved list `previousInputs`, and the rows
 * rendered for that list.
 *
 * A handler that throws keeps the changes it made before the throw; the
 * thrown error is reported beside the resulting page.
 */
module JwtPage {
  import opened Wrappers
  import opened JwtParser
  import JwtProperties

  /** A row of the saved-token table: the date column shows the time of rendering, not of saving. */
  datatype Row = Row(shownAt: int, token: string, expired: Option<bool>)

  /** `updateSavedList`'s rows, one per saved token in list order, rendered at `now`. */
  function RenderRows(saved: seq<JwtDetails>, now: int): (rows: seq<Row>)
    ensures |rows| == |saved|
    ensures forall i :: 0 <= i < |rows| ==>
      rows[i] == Row(now, saved[i].original, Expired(saved[i].expiration, now))
  {
    seq(|saved|, i requires 0 <= i < |saved| => Row(now, saved[i].original, Expired(saved[i].expiration, now)))
  }

  datatype Page = Page(
    input: string,
    flaggedInvalid: bool,
    saveEnabled: bool,
    current: Option<JwtDetails>,
    saved: seq<JwtDetails>,
    rows: seq<Row>)

  /** The page as loaded: empty input and list; the button's initial state comes from the markup. */
  function Initial(saveEnabled: bool): Page {
    Page("", false, saveEnabled, None, [], [])
  }

  /** What the user does: type (or load a token into the box), click save, click clear. */
  datatype Event = Typed(text: string) | SaveClicked | ClearClicked

  /** The page after a handler, and the exception it threw, if any. */
  datatype Outcome = Outcome(page: Page, thrown: Option<JsError>)

  /**
   * The `input` listener: clear the validity message, decode the box, then
   * either accept the token (remember it, enable save) or flag it and disable save.
   */
  function OnInput(parse: Parser, now: int, p: Page): (r: Outcome)
    ensures r.page.input == p.input && r.page.saved == p.saved && r.page.rows == p.rows
    ensures r.thrown.Some? <==> GenerateDisplayObject(parse, now, p.input).Failure?
  {
    var cleared := p.(flaggedInvalid := false);
    match GenerateDisplayObject(parse, now, p.input)
    case Failure(e) => Outcome(cleared, Some(e))
    case Success(details) =>
      if details.valid then Outcome(cleared.(current := Some(details), saveEnabled := true), None)
      else Outcome(cleared.(flaggedInvalid := true, saveEnabled := false), None)
  }

  /**
   * The save listener: empty the rendered list, decode the box again, append
   * the record without checking `valid`, sort, re-render, then empty the box
   * and disable save.
   */
  function OnSave(parse: Parser, now: int, p: Page): (r: Outcome)
    ensures r.thrown.Some? <==> GenerateDisplayObject(parse, now, p.input).Failure?
    ensures r.page.current == p.current && r.page.flaggedInvalid == p.flaggedInvalid
  {
    var emptied := p.(rows := []);
    match GenerateDisplayObject(parse, now, p.input)
    case Failure(e) => Outcome(emptied, Some(e))
    case Success(details) =>
      var saved := SortSaved(p.saved + [details]);
      Outcome(emptied.(saved := saved, rows := RenderRows(saved, now), input := "", saveEnabled := false), None)
  }

  /** The clear listener only empties the box; no `input` event fires. */
  function OnClear(p: Page): (q: Page)
    ensures q.input == "" && q.saveEnabled == p.saveEnabled && q.saved == p.saved
    ensures q.current == p.current && q.rows == p.rows && q.flaggedInvalid == p.flaggedInvalid
  {
    p.(input := "")
  }

  /** One event; a click on a disabled save button does nothing. */
  function Step(parse: Parser, now: int, p: Page, e: Event): (r: Outcome)
    ensures |r.page.saved| == |p.saved| || |r.page.saved| == |p.saved| + 1
    ensures multiset(p.saved) <= multiset(r.page.saved)
  {
    match e
    case Typed(text) => OnInput(parse, now, p.(input := text))
    case SaveClicked => if p.saveEnabled then OnSave(parse, now, p) else Outcome(p, None)
    case ClearClicked => Outcome(OnClear(p), None)
  }

  /** Decoding `text` succeeds with a valid record (the clock does not matter). */
  predicate DecodesValid(parse: Parser, text: string) {
    var r := GenerateDisplayObject(parse, 0, text);
    r.Success? && r.value.valid
  }

  /** Decoding `text` throws (the clock does not matter). */
  predicate DecodeThrows(parse: Parser, text: string) {
    GenerateDisplayObject(parse, 0, text).Failure?
  }

  /**
   * What every reachable page satisfies: save is enabled only while the box
   * holds a valid token or text whose decoding throws; the current and saved
   * records are valid; the saved list is ascending by timestamp.
   */
  predicate Consistent(parse: Parser, p: Page) {
    && (p.saveEnabled ==> DecodesValid(parse, p.input) || DecodeThrows(parse, p.input))
    && (p.current.Some? ==> p.current.value.valid)
    && (forall i :: 0 <= i < |p.saved| ==> p.saved[i].valid)
    && Ascending(p.saved)
  }

  /** The page as loaded is consistent, whatever the save button's initial state. */
  lemma InitialConsistent(parse: Parser, saveEnabled: bool)
    ensures Consistent(parse, Initial(saveEnabled))
  {
    JwtProperties.EmptyInputThrows(parse, 0);
  }

  /**
   * Typing: a decodable token enables save and becomes `currentInput` exactly
   * when it is valid; an invalid one is flagged and disables save; a throwing
   * decode leaves save and `currentInput` as they were.
   */
  lemma InputEnablesSaveOnlyWhenValid(parse: Parser, now: int, p: Page, text: string)
    ensures var r := Step(parse, now, p, Typed(text));
      var d := GenerateDisplayObject(parse, now, text);
      && r.page.input == text
      && (d.Success? ==>
            && r.thrown.None?
            && (r.page.saveEnabled <==> d.value.valid)
            && (r.page.flaggedInvalid <==> !d.value.valid)
            && r.page.current == (if d.value.valid then Some(d.value) else p.current))
      && (d.Failure? ==>
            && r.thrown == Some(d.error)
            && r.page.saveEnabled == p.saveEnabled
            && r.page.current == p.current
            && !r.page.flaggedInvalid)
  {
  }

  /**
   * Saving a decodable box appends exactly one record (without checking
   * `valid`), keeps the list a permutation sorted by timestamp, re-renders it,
   * empties the box and disables save.
   */
  lemma SaveAppendsOne(parse: Parser, now: int, p: Page)
    requires p.saveEnabled
    requires GenerateDisplayObject(parse, now, p.input).Success?
    ensures var r := Step(parse, now, p, SaveClicked);
      var d := GenerateDisplayObject(parse, now, p.input).value;
      && r.thrown.None?
      && multiset(r.page.saved) == multiset(p.saved) + multiset{d}
      && |r.page.saved| == |p.saved| + 1
      && Ascending(r.page.saved)
      && r.page.rows == RenderRows(r.page.saved, now)
      && r.page.input == ""
      && !r.page.saveEnabled
      && r.page.current == p.current
  {
    var d := GenerateDisplayObject(parse, now, p.input).value;
    assert multiset(p.saved + [d]) == multiset(p.saved) + multiset{d};
  }

  /** A save whose decode throws changes nothing but the rendered list, which it has already emptied. */
  lemma SaveThrowingKeepsList(parse: Parser, now: int, p: Page)
    requires p.saveEnabled
    requires GenerateDisplayObject(parse, now, p.input).Failure?
    ensures var r := Step(parse, now, p, SaveClicked);
      && r.thrown == Some(GenerateDisplayObject(parse, now, p.input).error)
      && r.page == p.(rows := [])
  {
  }

  /**
   * Clear does not disable save, so clicking save next decodes the empty box,
   * which throws: nothing is saved and the rendered list is left empty.
   */
  lemma ClearThenSaveThrows(parse: Parser, now: int, p: Page)
    requires p.saveEnabled
    ensures var q := Step(parse, now, p, ClearClicked).page;
      var r := Step(parse, now, q, SaveClicked);
      && r.thrown == Some(ExpOfUndefined)
      && r.page.saved == p.saved
      && r.page.rows == []
  {
    JwtProperties.EmptyInputThrows(parse, now);
  }

  /** With a clock past every saved timestamp, the new record simply lands at the end of the list. */
  lemma SaveWithLaterClockAppendsAtEnd(parse: Parser, now: int, p: Page)
    requires p.saveEnabled
    requires GenerateDisplayObject(parse, now, p.input).Success?
    requires Ascending(p.saved)
    requires forall i :: 0 <= i < |p.saved| ==> p.saved[i].timestamp < now
    ensures Step(parse, now, p, SaveClicked).page.saved == p.saved + [GenerateDisplayObject(parse, now, p.input).value]
  {
    var d := GenerateDisplayObject(parse, now, p.input).value;
    var s := p.saved + [d];
    assert Ascending(s);
    JwtProperties.SortKeepsAscending(s);
  }

  /** Validity and throwing do not depend on the clock reading. */
  lemma DecodeAnyClock(parse: Parser, now: int, text: string)
    ensures var r := GenerateDisplayObject(parse, now, text);
      && (r.Failure? <==> DecodeThrows(parse, text))
      && (r.Success? ==> (r.value.valid <==> DecodesValid(parse, text)))
  {
    JwtProperties.ClockOnlyStampsTimestamp(parse, now, 0, text);
  }

  /**
   * Every event keeps the page consistent. In particular the saved list only
   * ever holds valid records, although save itself never checks validity.
   */
  lemma StepPreservesConsistent(parse: Parser, now: int, p: Page, e: Event)
    requires Consistent(parse, p)
    ensures Consistent(parse, Step(parse, now, p, e).page)
  {
    match e
    case Typed(text) =>
      DecodeAnyClock(parse, now, text);
    case SaveClicked =>
      if p.saveEnabled {
        DecodeAnyClock(parse, now, p.input);
        var r := GenerateDisplayObject(parse, now, p.input);
        if r.Success? {
          var saved := Step(parse, now, p, e).page.saved;
          assert multiset(saved) == multiset(p.saved + [r.value]);
          forall i | 0 <= i < |saved| ensures saved[i].valid {
            assert saved[i] in multiset(p.saved + [r.value]);
            assert saved[i] in p.saved + [r.value];
          }
        }
      }
    case ClearClicked =>
      JwtProperties.EmptyInputThrows(parse, 0);
  }
}
