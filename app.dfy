/**
 * The dashboard's state (src/app.rs): the sort column, the per-core,
 * per-interface and per-process records, `AppState` with its constructor
 * and the two selection moves of the process table.
 */
module App {
  import opened Wrappers
  import opened Strings
  import opened Gpu

  /** The column the process table is ordered by. */
  datatype SortColumn = Pid | Name | Cpu | Memory

  /** A core's last usage in percent (an `f32` in Rust) and its recent samples. */
  datatype CpuHistory = CpuHistory(coreName: string, usage: real, history: seq<nat>)

  /** An interface's last byte counts and the recent samples of each direction. */
  datatype NetworkHistory = NetworkHistory(
    interfaceName: string,
    rxBytes: nat,
    txBytes: nat,
    rxHistory: seq<nat>,
    txHistory: seq<nat>)

  /** One row of the process table; `status` is the status as it is printed. */
  datatype ProcessInfo = ProcessInfo(pid: nat, name: string, cpuUsage: real, memory: nat, status: string)

  /**
   * The value of every field of an `AppState` that the model keeps (the
   * `sysinfo` handles are left out); `tableSelected` is the row the
   * ratatui `TableState` has selected.
   */
  datatype AppData = AppData(
    cpuHistory: seq<CpuHistory>,
    gpus: Option<seq<GpuInfo>>,
    overallCpu: real,
    networkHistory: seq<NetworkHistory>,
    processes: seq<ProcessInfo>,
    sortColumn: SortColumn,
    sortAscending: bool,
    selectedProcess: nat,
    tableSelected: Option<nat>,
    tickRateMs: nat,
    shouldQuit: bool,
    searchMode: bool,
    searchQuery: string,
    showLoopback: bool,
    maxProcesses: nat)

  /**
   * The `--sort` option, compared after lower-casing: `pid`, `name`,
   * `mem` or `memory`, and the CPU column for anything else.
   */
  function ParseSortColumn(sort: string): (c: SortColumn)
    ensures c == Pid <==> Lower(sort) == "pid"
    ensures c == Name <==> Lower(sort) == "name"
    ensures c == Memory <==> Lower(sort) == "mem" || Lower(sort) == "memory"
    ensures c == Cpu <==> Lower(sort) != "pid" && Lower(sort) != "name" && Lower(sort) != "mem" && Lower(sort) != "memory"
  {
    var s := Lower(sort);
    if s == "pid" then Pid
    else if s == "name" then Name
    else if s == "mem" || s == "memory" then Memory
    else Cpu
  }

  /** Parsing ignores the case of ASCII letters. */
  lemma ParseSortColumnIgnoresCase(a: string, b: string)
    requires Lower(a) == Lower(b)
    ensures ParseSortColumn(a) == ParseSortColumn(b)
  {
  }

  /** Sample spellings the `sort` match accepts, in any case. */
  lemma ParseSortColumnExamples()
    ensures ParseSortColumn("PID") == Pid
    ensures ParseSortColumn("Name") == Name
    ensures ParseSortColumn("MEM") == Memory && ParseSortColumn("Memory") == Memory
    ensures ParseSortColumn("cpu") == Cpu && ParseSortColumn("") == Cpu && ParseSortColumn("memo") == Cpu
  {
    assert Lower("PID") == "pid";
    assert Lower("Name") == "name";
    assert Lower("MEM") == "mem";
    assert Lower("Memory") == "memory";
    assert Lower("cpu") == "cpu";
    assert Lower("memo") == "memo";
  }

  /** The state `AppState::new` builds from the command-line options. */
  function Initial(tickRateMs: nat, showLoopback: bool, maxProcesses: nat, sort: string): (d: AppData)
    ensures d.cpuHistory == [] && d.networkHistory == [] && d.processes == [] && d.gpus.None?
    ensures d.sortColumn == ParseSortColumn(sort) && !d.sortAscending
    ensures d.selectedProcess == 0 && d.tableSelected.None?
    ensures !d.searchMode && d.searchQuery == [] && !d.shouldQuit && d.overallCpu == 0.0
    ensures d.tickRateMs == tickRateMs && d.showLoopback == showLoopback && d.maxProcesses == maxProcesses
  {
    AppData([], None, 0.0, [], [], ParseSortColumn(sort), false, 0, None, tickRateMs, false, false, [], showLoopback,
            maxProcesses)
  }

  /** `(selected + 1).min(len - 1)`: one row down, never past the last row. */
  function NextSelection(selected: nat, len: nat): (r: nat)
    requires len > 0
    ensures r < len
    ensures selected + 1 < len ==> r == selected + 1
    ensures selected + 1 >= len ==> r == len - 1
  {
    if selected + 1 < len then selected + 1 else len - 1
  }

  /** `selected.saturating_sub(1)`: one row up, stopping at the first row. */
  function PreviousSelection(selected: nat): (r: nat)
    ensures selected == 0 ==> r == 0
    ensures selected > 0 ==> r + 1 == selected
  {
    if selected == 0 then 0 else selected - 1
  }

  /** Moving down then up returns to a row that is not the last one. */
  lemma NextThenPrevious(selected: nat, len: nat)
    requires selected + 1 < len
    ensures PreviousSelection(NextSelection(selected, len)) == selected
  {
  }

  /** Moving up then down returns to any row but the first. */
  lemma PreviousThenNext(selected: nat, len: nat)
    requires 0 < selected < len
    ensures NextSelection(PreviousSelection(selected), len) == selected
  {
  }

  /** `next_process`: nothing on an empty table, otherwise the clamped move down, mirrored into the table state. */
  function SelectNext(d: AppData): (r: AppData)
    ensures d.processes == [] ==> r == d
    ensures d.processes != [] ==> r.selectedProcess < |d.processes| && r.tableSelected == Some(r.selectedProcess)
    ensures d.processes != [] ==> r == d.(selectedProcess := NextSelection(d.selectedProcess, |d.processes|),
                                          tableSelected := Some(NextSelection(d.selectedProcess, |d.processes|)))
  {
    if d.processes == [] then d
    else
      var s := NextSelection(d.selectedProcess, |d.processes|);
      d.(selectedProcess := s, tableSelected := Some(s))
  }

  /** `previous_process`: nothing on an empty table, otherwise the saturating move up, with no upper bound check. */
  function SelectPrevious(d: AppData): (r: AppData)
    ensures d.processes == [] ==> r == d
    ensures d.processes != [] ==> r.selectedProcess <= d.selectedProcess && r.tableSelected == Some(r.selectedProcess)
    ensures d.processes != [] ==> r == d.(selectedProcess := PreviousSelection(d.selectedProcess),
                                          tableSelected := Some(PreviousSelection(d.selectedProcess)))
  {
    if d.processes == [] then d
    else
      var s := PreviousSelection(d.selectedProcess);
      d.(selectedProcess := s, tableSelected := Some(s))
  }

  /**
   * A selection left past the end of a shrunk table is pulled back to the
   * last row by one move down, while a move up only steps back by one and
   * can leave it past the end.
   */
  lemma StaleSelection(d: AppData)
    requires d.processes != [] && d.selectedProcess >= |d.processes|
    ensures SelectNext(d).selectedProcess == |d.processes| - 1
    ensures SelectPrevious(d).selectedProcess == d.selectedProcess - 1
  {
  }

  /** The dashboard's state, updated in place by the key handler and by every refresh. */
  class AppState {
    var cpuHistory: seq<CpuHistory>
    var gpus: Option<seq<GpuInfo>>
    var overallCpu: real
    var networkHistory: seq<NetworkHistory>
    var processes: seq<ProcessInfo>
    var sortColumn: SortColumn
    var sortAscending: bool
    var selectedProcess: nat
    var tableSelected: Option<nat>
    var tickRateMs: nat
    var shouldQuit: bool
    var searchMode: bool
    var searchQuery: string
    var showLoopback: bool
    var maxProcesses: nat

    /** The current value of every field. */
    function View(): AppData
      reads this
    {
      AppData(cpuHistory, gpus, overallCpu, networkHistory, processes, sortColumn, sortAscending,
              selectedProcess, tableSelected, tickRateMs, shouldQuit, searchMode, searchQuery,
              showLoopback, maxProcesses)
    }

    /** `AppState::new`. */
    constructor (tickRateMs: nat, showLoopback: bool, maxProcesses: nat, sort: string)
      ensures View() == Initial(tickRateMs, showLoopback, maxProcesses, sort)
    {
      var s := Lower(sort);
      var column;
      if s == "pid" {
        column := Pid;
      } else if s == "name" {
        column := Name;
      } else if s == "mem" || s == "memory" {
        column := Memory;
      } else {
        column := Cpu;
      }
      cpuHistory := [];
      gpus := None;
      overallCpu := 0.0;
      networkHistory := [];
      processes := [];
      sortColumn := column;
      sortAscending := false;
      selectedProcess := 0;
      tableSelected := None;
      this.tickRateMs := tickRateMs;
      shouldQuit := false;
      searchMode := false;
      searchQuery := [];
      this.showLoopback := showLoopback;
      this.maxProcesses := maxProcesses;
    }

    /** `next_process`. */
    method NextProcess()
      modifies this
      ensures View() == SelectNext(old(View()))
    {
      if processes == [] {
        return;
      }
      selectedProcess := if selectedProcess + 1 < |processes| then selectedProcess + 1 else |processes| - 1;
      tableSelected := Some(selectedProcess);
    }

    /** `previous_process`. */
    method PreviousProcess()
      modifies this
      ensures View() == SelectPrevious(old(View()))
    {
      if processes == [] {
        return;
      }
      selectedProcess := if selectedProcess == 0 then 0 else selectedProcess - 1;
      tableSelected := Some(selectedProcess);
    }
  }
}
