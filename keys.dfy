/**
 * The key handler inside `run_app` (src/main.rs): how one key press
 * changes the dashboard's state, or ends the program. Reading the event
 * from the terminal is outside the model: the key is a parameter.
 */
module Keys {
  import opened Wrappers
  import opened App

  /** The key codes the handler tells apart; every other code is `Other`. */
  datatype KeyCode = Char(c: char) | Enter | Esc | Backspace | Up | Down | Other

  /** A key press and whether Control was held (no other modifier is looked at). */
  datatype KeyEvent = KeyEvent(code: KeyCode, control: bool)

  /** Either `run_app` returns, or the loop goes on with the new state. */
  datatype Outcome = Quit | Continue(next: AppData)

  /**
   * The two states agree on everything a key press never touches: the
   * readings, the histories, the process table and the options.
   */
  predicate SameTelemetry(a: AppData, b: AppData) {
    a.processes == b.processes && a.cpuHistory == b.cpuHistory && a.networkHistory == b.networkHistory
    && a.gpus == b.gpus && a.overallCpu == b.overallCpu
    && a.maxProcesses == b.maxProcesses && a.showLoopback == b.showLoopback && a.tickRateMs == b.tickRateMs
  }

  /**
   * The search-mode editing of the query: Enter, Esc, Backspace and
   * characters; only the search mode and the query ever change.
   */
  function SearchKey(d: AppData, code: KeyCode): (r: AppData)
    ensures SameTelemetry(d, r)
    ensures r == d.(searchMode := r.searchMode, searchQuery := r.searchQuery)
  {
    match code
    case Enter => d.(searchMode := false)
    case Esc => d.(searchMode := false, searchQuery := [])
    case Backspace => d.(searchQuery := if d.searchQuery == [] then [] else d.searchQuery[..|d.searchQuery| - 1])
    case Char(c) => d.(searchQuery := d.searchQuery + [c])
    case _ => d
  }

  /**
   * The arms outside search mode, tried in order: `q`/`Q` quits; `c`
   * quits with Control and is otherwise swallowed by the same arm, so only
   * `C` without Control selects the CPU column; `j`/Down and `k`/Up move
   * the selection; `m`, `p`, `n` pick a column; `r` flips the direction;
   * `/` starts a search.
   */
  function CommandKey(d: AppData, key: KeyEvent): (o: Outcome)
    ensures o.Continue? ==> SameTelemetry(d, o.next) && o.next.searchQuery == d.searchQuery
  {
    match key.code
    case Char(c) =>
      if c == 'q' || c == 'Q' then Quit
      else if c == 'c' then (if key.control then Quit else Continue(d))
      else if c == 'j' then Continue(SelectNext(d))
      else if c == 'k' then Continue(SelectPrevious(d))
      else if c == 'C' && !key.control then Continue(d.(sortColumn := Cpu))
      else if c == 'M' || c == 'm' then Continue(d.(sortColumn := Memory))
      else if c == 'P' || c == 'p' then Continue(d.(sortColumn := Pid))
      else if c == 'N' || c == 'n' then Continue(d.(sortColumn := Name))
      else if c == 'R' || c == 'r' then Continue(d.(sortAscending := !d.sortAscending))
      else if c == '/' then Continue(d.(searchMode := true))
      else Continue(d)
    case Down => Continue(SelectNext(d))
    case Up => Continue(SelectPrevious(d))
    case _ => Continue(d)
  }

  /** One key press. */
  function Dispatch(d: AppData, key: KeyEvent): (o: Outcome)
    ensures o.Continue? ==> SameTelemetry(d, o.next)
    ensures o.Quit? ==> !d.searchMode
  {
    if d.searchMode then Continue(SearchKey(d, key.code)) else CommandKey(d, key)
  }

  /** A key ends the program exactly when it is `q`, `Q` or Control-`c` outside search mode. */
  lemma QuitKeys(d: AppData, key: KeyEvent)
    ensures Dispatch(d, key).Quit? <==>
              !d.searchMode && (key.code == Char('q') || key.code == Char('Q') || (key.code == Char('c') && key.control))
  {
  }

  /** In search mode every character, `q` included, is typed into the query. */
  lemma SearchTypes(d: AppData, c: char, control: bool)
    requires d.searchMode
    ensures Dispatch(d, KeyEvent(Char(c), control)) == Continue(d.(searchQuery := d.searchQuery + [c]))
  {
  }

  /** Enter ends the search and keeps the query; Esc ends it and clears the query. */
  lemma SearchEnds(d: AppData, control: bool)
    requires d.searchMode
    ensures Dispatch(d, KeyEvent(Enter, control)) == Continue(d.(searchMode := false))
    ensures Dispatch(d, KeyEvent(Esc, control)) == Continue(d.(searchMode := false, searchQuery := []))
  {
  }

  /** In search mode the arrows and every other key that does not edit the query change nothing. */
  lemma SearchIgnoresOtherKeys(d: AppData, key: KeyEvent)
    requires d.searchMode && !key.code.Char? && key.code !in {Enter, Esc, Backspace}
    ensures Dispatch(d, key) == Continue(d)
  {
  }

  /** Backspace drops the last character of the query, and does nothing to an empty one. */
  lemma SearchBackspace(d: AppData, control: bool)
    requires d.searchMode
    ensures var n := Dispatch(d, KeyEvent(Backspace, control));
            n.Continue? && n.next.searchMode
            && (d.searchQuery == [] ==> n.next == d)
            && (d.searchQuery != [] ==> n.next.searchQuery + [d.searchQuery[|d.searchQuery| - 1]] == d.searchQuery)
  {
  }

  /** Typing a character and deleting it again restores the state. */
  lemma TypeThenBackspace(d: AppData, c: char, control: bool)
    requires d.searchMode
    ensures var typed := Dispatch(d, KeyEvent(Char(c), control)).next;
            Dispatch(typed, KeyEvent(Backspace, control)) == Continue(d)
  {
    var typed := Dispatch(d, KeyEvent(Char(c), control)).next;
    assert typed.searchQuery[..|typed.searchQuery| - 1] == d.searchQuery;
  }

  /** A lower-case `c` without Control is swallowed; only `C` selects the CPU column. */
  lemma LowercaseCIgnored(d: AppData)
    requires !d.searchMode
    ensures Dispatch(d, KeyEvent(Char('c'), false)) == Continue(d)
    ensures Dispatch(d, KeyEvent(Char('C'), false)) == Continue(d.(sortColumn := Cpu))
    ensures Dispatch(d, KeyEvent(Char('C'), true)) == Continue(d)
  {
  }

  /** The column keys, in either case. */
  lemma ColumnKeys(d: AppData, control: bool)
    requires !d.searchMode
    ensures Dispatch(d, KeyEvent(Char('m'), control)) == Continue(d.(sortColumn := Memory))
    ensures Dispatch(d, KeyEvent(Char('M'), control)) == Continue(d.(sortColumn := Memory))
    ensures Dispatch(d, KeyEvent(Char('p'), control)) == Continue(d.(sortColumn := Pid))
    ensures Dispatch(d, KeyEvent(Char('P'), control)) == Continue(d.(sortColumn := Pid))
    ensures Dispatch(d, KeyEvent(Char('n'), control)) == Continue(d.(sortColumn := Name))
    ensures Dispatch(d, KeyEvent(Char('N'), control)) == Continue(d.(sortColumn := Name))
  {
  }

  /** Flipping the direction twice restores it. */
  lemma ToggleTwice(d: AppData, upper: bool, control: bool)
    requires !d.searchMode
    ensures var r := KeyEvent(Char(if upper then 'R' else 'r'), control);
            var once := Dispatch(d, r);
            once.Continue? && once.next.sortAscending == !d.sortAscending
            && Dispatch(once.next, r) == Continue(d)
  {
  }

  /** Starting a search and pressing Enter at once restores the state. */
  lemma SearchThenEnter(d: AppData, control: bool)
    requires !d.searchMode
    ensures var started := Dispatch(d, KeyEvent(Char('/'), control));
            started.Continue? && started.next.searchMode
            && Dispatch(started.next, KeyEvent(Enter, control)) == Continue(d)
  {
  }

  /** Down and `j` move the selection down, Up and `k` move it up. */
  lemma NavigationKeys(d: AppData, control: bool)
    requires !d.searchMode
    ensures Dispatch(d, KeyEvent(Down, control)) == Continue(SelectNext(d))
    ensures Dispatch(d, KeyEvent(Char('j'), control)) == Continue(SelectNext(d))
    ensures Dispatch(d, KeyEvent(Up, control)) == Continue(SelectPrevious(d))
    ensures Dispatch(d, KeyEvent(Char('k'), control)) == Continue(SelectPrevious(d))
  {
  }

  /** Moving down on a non-empty table always leaves a valid selection. */
  lemma DownSelectsRow(d: AppData, control: bool)
    requires !d.searchMode && d.processes != []
    ensures var n := Dispatch(d, KeyEvent(Down, control)).next;
            n.selectedProcess < |n.processes| && n.tableSelected == Some(n.selectedProcess)
  {
  }

  /** Any other key outside search mode changes nothing. */
  lemma OtherKeysIgnored(d: AppData, key: KeyEvent)
    requires !d.searchMode
    requires key.code !in {Up, Down}
    requires key.code.Char? ==> key.code.c !in "qQcjkCmMpPnNrR/"
    ensures Dispatch(d, key) == Continue(d)
  {
  }

  /** The handler, applied to the state in place; `true` when `run_app` returns. */
  method HandleKey(app: AppState, key: KeyEvent) returns (quit: bool)
    modifies app
    ensures quit <==> Dispatch(old(app.View()), key).Quit?
    ensures quit ==> app.View() == old(app.View())
    ensures !quit ==> app.View() == Dispatch(old(app.View()), key).next
  {
    if app.searchMode {
      HandleSearchKey(app, key.code);
      quit := false;
    } else {
      quit := HandleCommandKey(app, key);
    }
  }

  /** The `match` of search mode. */
  method HandleSearchKey(app: AppState, code: KeyCode)
    modifies app
    ensures app.View() == SearchKey(old(app.View()), code)
  {
    match code {
      case Enter =>
        app.searchMode := false;
      case Esc =>
        app.searchMode := false;
        app.searchQuery := [];
      case Backspace =>
        if app.searchQuery != [] {
          app.searchQuery := app.searchQuery[..|app.searchQuery| - 1];
        }
      case Char(c) =>
        app.searchQuery := app.searchQuery + [c];
      case _ =>
    }
  }

  /** The `match` outside search mode; `true` for the arms that return from `run_app`. */
  method HandleCommandKey(app: AppState, key: KeyEvent) returns (quit: bool)
    modifies app
    ensures quit <==> CommandKey(old(app.View()), key).Quit?
    ensures quit ==> app.View() == old(app.View())
    ensures !quit ==> app.View() == CommandKey(old(app.View()), key).next
  {
    quit := false;
    match key.code {
      case Char(c) =>
        if c == 'q' || c == 'Q' {
          quit := true;
        } else if c == 'c' {
          quit := key.control;
        } else if c == 'j' {
          app.NextProcess();
        } else if c == 'k' {
          app.PreviousProcess();
        } else if c == 'C' && !key.control {
          app.sortColumn := Cpu;
        } else if c == 'M' || c == 'm' {
          app.sortColumn := Memory;
        } else if c == 'P' || c == 'p' {
          app.sortColumn := Pid;
        } else if c == 'N' || c == 'n' {
          app.sortColumn := Name;
        } else if c == 'R' || c == 'r' {
          app.sortAscending := !app.sortAscending;
        } else if c == '/' {
          app.searchMode := true;
        }
      case Down =>
        app.NextProcess();
      case Up =>
        app.PreviousProcess();
      case _ =>
    }
  }
}
