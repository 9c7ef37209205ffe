/**
 The probes that read the text printed by Windows utilities (`wmic`, PowerShell,
 `systeminfo | find`): which line and which tokens become a field, and what is shown when
 the utility fails.
 */
module Scrapers {
  import opened Wrappers
  import opened Text
  import opened FieldMap

  /** What `subprocess.run(..., capture_output=True, text=True)` gave: an exit code and standard output, or an exception. */
  datatype CommandResult = Completed(returnCode: int, stdout: string) | Raised

  /** `result.stdout.strip().split('\n')` for a successful run. */
  function OutputLines(run: CommandResult): (lines: Option<seq<string>>)
    ensures lines.Some? <==> run.Completed? && run.returnCode == 0
    ensures lines.Some? ==> Join("\n", lines.value) == Strip(run.stdout)
    ensures lines.Some? ==> forall i :: 0 <= i < |lines.value| ==> '\n' !in lines.value[i]
  {
    if run.Completed? && run.returnCode == 0 then Some(SplitOn(Strip(run.stdout), '\n')) else None
  }

  /** The value row of a one-column `wmic ... get` table: the second output line, stripped. */
  function SecondLine(run: CommandResult): (r: Option<string>)
    ensures r.Some? <==> OutputLines(run).Some? && |OutputLines(run).value| > 1
    ensures r.Some? ==> IsStripOf(r.value, OutputLines(run).value[1])
  {
    var lines := OutputLines(run);
    if lines.Some? && |lines.value| > 1 then Some(Strip(lines.value[1])) else None
  }

  /**
   The value row of a two-column `wmic ... get a,b` table: the first whitespace token and the
   remaining tokens joined by single spaces, when the second line has at least two tokens.
   */
  function TwoColumns(run: CommandResult): Option<(string, string)> {
    var lines := OutputLines(run);
    if lines.Some? && |lines.value| > 1 then
      var parts := Tokens(Strip(lines.value[1]));
      if |parts| >= 2 then Some((parts[0], Join(" ", parts[1..]))) else None
    else None
  }

  /**
   A two-column row splits the second line at whitespace: the first column is the first token
   and splitting the second column again gives exactly the remaining tokens.
   */
  lemma {:induction false} TwoColumnsTokens(run: CommandResult)
    ensures TwoColumns(run).Some? <==>
              OutputLines(run).Some? && |OutputLines(run).value| > 1 && |Tokens(Strip(OutputLines(run).value[1]))| >= 2
    ensures TwoColumns(run).Some? ==>
              var parts := Tokens(Strip(OutputLines(run).value[1]));
              && TwoColumns(run).value.0 == parts[0]
              && TwoColumns(run).value.1 == Join(" ", parts[1..])
              && Tokens(TwoColumns(run).value.1) == parts[1..]
              && NoSpace(TwoColumns(run).value.0) && TwoColumns(run).value.0 != []
  {
    if TwoColumns(run).Some? {
      var parts := Tokens(Strip(OutputLines(run).value[1]));
      TokensOfJoin(parts[1..]);
    }
  }

  const HardwareError: string := "Unable to retrieve hardware information"

  /** Records a two-column row under two field names (lines 152-153 and 177-178); no row, no change. */
  function AddRow(d: Fields, row: Option<(string, string)>, first: string, second: string): (r: Fields)
    requires first != second
    ensures row.None? ==> r == d
    ensures row.Some? ==> Get(r, first) == Some(row.value.0) && Get(r, second) == Some(row.value.1) && |r| > 0
    ensures forall k :: k != first && k != second ==> Get(r, k) == Get(d, k)
    ensures |r| >= |d|
  {
    match row
    case Some((a, b)) => Set(Set(d, first, a), second, b)
    case None => d
  }

  /** Records a single value under one field name (line 164); no value, no change. */
  function AddLine(d: Fields, line: Option<string>, name: string): (r: Fields)
    ensures line.None? ==> r == d
    ensures line.Some? ==> Get(r, name) == line && |r| > 0
    ensures forall k :: k != name ==> Get(r, k) == Get(d, k)
    ensures |r| >= |d|
  {
    match line
    case Some(v) => Set(d, name, v)
    case None => d
  }

  /** A row under two new names appends both names, in that order. */
  lemma KeysOfAddRow(d: Fields, row: Option<(string, string)>, first: string, second: string)
    requires first != second && first !in Keys(d) && second !in Keys(d)
    ensures Keys(AddRow(d, row, first, second)) == Keys(d) + if row.Some? then [first, second] else []
  {
    if row.Some? {
      var d1 := Set(d, first, row.value.0);
      assert Keys(d1) == Keys(d) + [first];
      assert second !in Keys(d1);
      assert Keys(d1) + [second] == Keys(d) + [first, second];
    }
  }

  /** A line under a new name appends that name. */
  lemma KeysOfAddLine(d: Fields, line: Option<string>, name: string)
    requires name !in Keys(d)
    ensures Keys(AddLine(d, line, name)) == Keys(d) + if line.Some? then [name] else []
  {
  }

  /**
   `get_hardware_info` from the three `wmic` runs (computer system, BIOS, baseboard): each
   query that yields a row adds its fields, and none at all collapses to a single `Error`.
   */
  function HardwareInfo(system: CommandResult, bios: CommandResult, board: CommandResult): (r: Fields)
    ensures Get(r, "Manufacturer") == (if TwoColumns(system).Some? then Some(TwoColumns(system).value.0) else None)
    ensures Get(r, "Model") == (if TwoColumns(system).Some? then Some(TwoColumns(system).value.1) else None)
    ensures Get(r, "Serial Number") == SecondLine(bios)
    ensures Get(r, "Motherboard Manufacturer") == (if TwoColumns(board).Some? then Some(TwoColumns(board).value.0) else None)
    ensures Get(r, "Motherboard Model") == (if TwoColumns(board).Some? then Some(TwoColumns(board).value.1) else None)
    ensures r == [("Error", HardwareError)] <==> TwoColumns(system).None? && SecondLine(bios).None? && TwoColumns(board).None?
  {
    var systemRow, serial, boardRow := TwoColumns(system), SecondLine(bios), TwoColumns(board);
    HardwareSystemFields(systemRow, serial, boardRow);
    HardwareSerialField(systemRow, serial, boardRow);
    HardwareBoardFields(systemRow, serial, boardRow);
    HardwareCollapse(systemRow, serial, boardRow);
    HardwareFrom(systemRow, serial, boardRow)
  }

  /** `get_hardware_info` once each query has been reduced to its row, if any. */
  function HardwareFrom(system: Option<(string, string)>, serial: Option<string>, board: Option<(string, string)>): Fields {
    var d := AddRow([], system, "Manufacturer", "Model");
    var d := AddLine(d, serial, "Serial Number");
    var d := AddRow(d, board, "Motherboard Manufacturer", "Motherboard Model");
    if |d| == 0 then [("Error", HardwareError)] else d
  }

  /** The six keys the hardware probe can write are pairwise different. */
  lemma HardwareNamesDistinct()
    ensures "Error" != "Manufacturer" && "Error" != "Model" && "Error" != "Serial Number"
    ensures "Error" != "Motherboard Manufacturer" && "Error" != "Motherboard Model"
    ensures "Manufacturer" != "Serial Number" && "Model" != "Serial Number"
    ensures "Manufacturer" != "Motherboard Manufacturer" && "Manufacturer" != "Motherboard Model"
    ensures "Model" != "Motherboard Manufacturer" && "Model" != "Motherboard Model"
    ensures "Serial Number" != "Motherboard Manufacturer" && "Serial Number" != "Motherboard Model"
  {
    assert "Error"[0] != "Model"[0];
  }

  /** The `Error` entry stands alone and appears exactly when all three queries failed. */
  lemma HardwareCollapse(system: Option<(string, string)>, serial: Option<string>, board: Option<(string, string)>)
    ensures HardwareFrom(system, serial, board) == [("Error", HardwareError)]
            <==> system.None? && serial.None? && board.None?
  {
    var d1 := AddRow([], system, "Manufacturer", "Model");
    var d2 := AddLine(d1, serial, "Serial Number");
    var d3 := AddRow(d2, board, "Motherboard Manufacturer", "Motherboard Model");
    if !(system.None? && serial.None? && board.None?) {
      assert |d3| > 0;
      HardwareHasNoError(system, serial, board);
      ErrorEntryHasError();
    }
  }

  lemma ErrorEntryHasError()
    ensures Get([("Error", HardwareError)], "Error").Some?
  {
    assert [("Error", HardwareError)][0].0 == "Error";
  }

  /** None of the fields the three queries write is called `Error`. */
  lemma HardwareHasNoError(system: Option<(string, string)>, serial: Option<string>, board: Option<(string, string)>)
    ensures Get(AddRow(AddLine(AddRow([], system, "Manufacturer", "Model"), serial, "Serial Number"),
                       board, "Motherboard Manufacturer", "Motherboard Model"), "Error") == None
  {
    HardwareNamesDistinct();
    AbsentName(system, serial, board, "Manufacturer", "Model", "Serial Number", "Motherboard Manufacturer", "Motherboard Model", "Error");
  }

  /** A name none of the three writes uses stays absent. */
  lemma AbsentName(system: Option<(string, string)>, serial: Option<string>, board: Option<(string, string)>,
                   n1: string, n2: string, n3: string, n4: string, n5: string, e: string)
    requires n1 != n2 && n4 != n5
    requires e != n1 && e != n2 && e != n3 && e != n4 && e != n5
    ensures Get(AddRow(AddLine(AddRow([], system, n1, n2), serial, n3), board, n4, n5), e) == None
  {
    var d1 := AddRow([], system, n1, n2);
    assert Get([], e) == None;
    assert Get(d1, e) == None;
  }

  /**
   The hardware dict lists its fields in the order the probe writes them: the computer-system
   pair, the serial number, then the motherboard pair, each only when its query gave a value;
   with none of them it holds the `Error` entry alone.
   */
  lemma {:induction false} HardwareKeys(system: Option<(string, string)>, serial: Option<string>, board: Option<(string, string)>)
    ensures Keys(HardwareFrom(system, serial, board)) ==
              if system.None? && serial.None? && board.None? then ["Error"]
              else (if system.Some? then ["Manufacturer", "Model"] else [])
                   + (if serial.Some? then ["Serial Number"] else [])
                   + (if board.Some? then ["Motherboard Manufacturer", "Motherboard Model"] else [])
  {
    var d := AddRow(AddLine(AddRow([], system, "Manufacturer", "Model"), serial, "Serial Number"),
                    board, "Motherboard Manufacturer", "Motherboard Model");
    assert HardwareFrom(system, serial, board) == if |d| == 0 then [("Error", HardwareError)] else d;
    HardwareNamesDistinct();
    KeysOfThreeProbes(system, serial, board, "Manufacturer", "Model", "Serial Number", "Motherboard Manufacturer", "Motherboard Model");
    if system.None? && serial.None? && board.None? {
      assert |Keys(d)| == 0;
      assert Keys([("Error", HardwareError)]) == ["Error"];
    } else {
      assert |Keys(d)| > 0;
    }
  }

  /** The three writes, under five different names, append the names of the values present, in order. */
  lemma KeysOfThreeProbes(system: Option<(string, string)>, serial: Option<string>, board: Option<(string, string)>,
                          n1: string, n2: string, n3: string, n4: string, n5: string)
    requires n1 != n2 && n1 != n3 && n1 != n4 && n1 != n5 && n2 != n3 && n2 != n4 && n2 != n5
    requires n3 != n4 && n3 != n5 && n4 != n5
    ensures Keys(AddRow(AddLine(AddRow([], system, n1, n2), serial, n3), board, n4, n5)) ==
              (if system.Some? then [n1, n2] else []) + (if serial.Some? then [n3] else [])
              + (if board.Some? then [n4, n5] else [])
  {
    var k1: seq<string> := if system.Some? then [n1, n2] else [];
    var k2: seq<string> := if serial.Some? then [n3] else [];
    var d1 := AddRow([], system, n1, n2);
    var d2 := AddLine(d1, serial, n3);
    FreshNames(system.Some?, serial.Some?, n1, n2, n3, n4, n5);
    assert Keys(d1) == k1 by {
      KeysOfAddRow([], system, n1, n2);
    }
    assert Keys(d2) == k1 + k2 by {
      KeysOfAddLine(d1, serial, n3);
    }
    KeysOfAddRow(d2, board, n4, n5);
  }

  lemma FreshNames(first: bool, second: bool, n1: string, n2: string, n3: string, n4: string, n5: string)
    requires n1 != n3 && n1 != n4 && n1 != n5 && n2 != n3 && n2 != n4 && n2 != n5 && n3 != n4 && n3 != n5
    ensures var k1: seq<string> := if first then [n1, n2] else [];
            var k2: seq<string> := if second then [n3] else [];
            n3 !in k1 && n4 !in k1 + k2 && n5 !in k1 + k2
  {
  }

  /** `Manufacturer` and `Model` are present exactly when the computer-system query gave a row, and hold its two columns. */
  lemma HardwareSystemFields(system: Option<(string, string)>, serial: Option<string>, board: Option<(string, string)>)
    ensures Get(HardwareFrom(system, serial, board), "Manufacturer") == (if system.Some? then Some(system.value.0) else None)
    ensures Get(HardwareFrom(system, serial, board), "Model") == (if system.Some? then Some(system.value.1) else None)
  {
    HardwareValues(system, serial, board);
    ErrorEntryLacks("Manufacturer");
    ErrorEntryLacks("Model");
  }

  /** `Serial Number` is present exactly when the BIOS query gave a value row, and holds it. */
  lemma HardwareSerialField(system: Option<(string, string)>, serial: Option<string>, board: Option<(string, string)>)
    ensures Get(HardwareFrom(system, serial, board), "Serial Number") == serial
  {
    HardwareValues(system, serial, board);
    ErrorEntryLacks("Serial Number");
  }

  /** The motherboard fields are present exactly when the baseboard query gave a row, and hold its two columns. */
  lemma HardwareBoardFields(system: Option<(string, string)>, serial: Option<string>, board: Option<(string, string)>)
    ensures Get(HardwareFrom(system, serial, board), "Motherboard Manufacturer") == (if board.Some? then Some(board.value.0) else None)
    ensures Get(HardwareFrom(system, serial, board), "Motherboard Model") == (if board.Some? then Some(board.value.1) else None)
  {
    HardwareValues(system, serial, board);
    ErrorEntryLacks("Motherboard Manufacturer");
    ErrorEntryLacks("Motherboard Model");
  }

  /** The five fields the queries write, before the collapse to `Error`. */
  lemma HardwareValues(system: Option<(string, string)>, serial: Option<string>, board: Option<(string, string)>)
    ensures var d := AddRow(AddLine(AddRow([], system, "Manufacturer", "Model"), serial, "Serial Number"),
                            board, "Motherboard Manufacturer", "Motherboard Model");
            && HardwareFrom(system, serial, board) == (if |d| == 0 then [("Error", HardwareError)] else d)
            && Get(d, "Manufacturer") == (if system.Some? then Some(system.value.0) else None)
            && Get(d, "Model") == (if system.Some? then Some(system.value.1) else None)
            && Get(d, "Serial Number") == serial
            && Get(d, "Motherboard Manufacturer") == (if board.Some? then Some(board.value.0) else None)
            && Get(d, "Motherboard Model") == (if board.Some? then Some(board.value.1) else None)
  {
    HardwareNamesDistinct();
    ValuesOfThreeProbes(system, serial, board, "Manufacturer", "Model", "Serial Number", "Motherboard Manufacturer", "Motherboard Model");
  }

  /** Each of the three writes, under five different names, stores exactly its own value. */
  lemma ValuesOfThreeProbes(system: Option<(string, string)>, serial: Option<string>, board: Option<(string, string)>,
                            n1: string, n2: string, n3: string, n4: string, n5: string)
    requires n1 != n2 && n1 != n3 && n1 != n4 && n1 != n5 && n2 != n3 && n2 != n4 && n2 != n5
    requires n3 != n4 && n3 != n5 && n4 != n5
    ensures var d := AddRow(AddLine(AddRow([], system, n1, n2), serial, n3), board, n4, n5);
            && Get(d, n1) == (if system.Some? then Some(system.value.0) else None)
            && Get(d, n2) == (if system.Some? then Some(system.value.1) else None)
            && Get(d, n3) == serial
            && Get(d, n4) == (if board.Some? then Some(board.value.0) else None)
            && Get(d, n5) == (if board.Some? then Some(board.value.1) else None)
  {
    var d1 := AddRow([], system, n1, n2);
    var d2 := AddLine(d1, serial, n3);
    assert Get([], n1).None? && Get([], n2).None? && Get([], n3).None? && Get([], n4).None? && Get([], n5).None?;
    assert Get(d2, n1) == Get(d1, n1) && Get(d2, n2) == Get(d1, n2);
    assert Get(d2, n4) == Get(d1, n4) == None && Get(d2, n5) == Get(d1, n5) == None;
  }

  /** The lone `Error` entry has no other field. */
  lemma ErrorEntryLacks(k: string)
    requires k != "Error"
    ensures Get([("Error", HardwareError)], k).None?
  {
    assert [("Error", HardwareError)][1..] == [];
  }

  /**
   `get_cpu_info` adds `Name` from `wmic cpu get name` to the psutil fields when the query
   yields a row: appended after them, or in its old place if the psutil fields had one.
   */
  function CpuInfo(base: Fields, nameRun: CommandResult): (r: Fields)
    ensures Get(r, "Name") == (if SecondLine(nameRun).Some? then SecondLine(nameRun) else Get(base, "Name"))
    ensures forall k :: k != "Name" ==> Get(r, k) == Get(base, k)
    ensures Keys(r) == if SecondLine(nameRun).Some? && "Name" !in Keys(base) then Keys(base) + ["Name"] else Keys(base)
  {
    match SecondLine(nameRun)
    case Some(name) => Set(base, "Name", name)
    case None => base
  }

  const InstalledOnLabel: string := "InstalledOn"

  /** A line that `get_last_update_time` takes its answer from. */
  predicate UpdateLine(line: string) {
    Contains(line, InstalledOnLabel) && |Tokens(line)| >= 3
  }

  /** The loop over the output lines: the tokens after the first of the first qualifying line. */
  function FindInstalledOn(lines: seq<string>): (r: Option<string>)
    ensures r.None? <==> forall i :: 0 <= i < |lines| ==> !UpdateLine(lines[i])
    ensures r.Some? ==> exists i :: 0 <= i < |lines| && UpdateLine(lines[i])
                                   && (forall j :: 0 <= j < i ==> !UpdateLine(lines[j]))
                                   && r.value == Join(" ", Tokens(lines[i])[1..])
  {
    if |lines| == 0 then None
    else if UpdateLine(lines[0]) then Some(Join(" ", Tokens(lines[0])[1..]))
    else
      var rest := FindInstalledOn(lines[1..]);
      assert forall i :: 1 <= i < |lines| ==> lines[i] == lines[1..][i - 1];
      rest
  }

  /** `get_last_update_time` */
  function LastUpdate(run: CommandResult): string {
    if run.Completed? && run.returnCode == 0 && Strip(run.stdout) != [] then
      FindInstalledOn(SplitOn(run.stdout, '\n')).GetOr("Unknown")
    else "Unknown"
  }

  /** A single-space join of two or more tokens contains a space. */
  lemma {:induction false} JoinHasSpace(ts: seq<string>)
    requires |ts| >= 2
    ensures ' ' in Join(" ", ts)
  {
    JoinCons(" ", ts[0], ts[1..]);
    assert ts == [ts[0]] + ts[1..];
    assert Join(" ", ts)[|ts[0]|] == ' ';
  }

  /**
   The update time is "Unknown" exactly when the run failed or no output line mentions
   `InstalledOn` with at least three tokens (a found value always contains a space, so it is
   never confused with "Unknown"); otherwise it is the first such line without its first token.
   */
  lemma {:induction false} LastUpdateFound(run: CommandResult)
    ensures LastUpdate(run) != "Unknown" <==>
              run.Completed? && run.returnCode == 0 && exists i :: 0 <= i < |SplitOn(run.stdout, '\n')| && UpdateLine(SplitOn(run.stdout, '\n')[i])
    ensures LastUpdate(run) != "Unknown" ==> LastUpdate(run) == FindInstalledOn(SplitOn(run.stdout, '\n')).value
  {
    if run.Completed? && run.returnCode == 0 {
      var lines := SplitOn(run.stdout, '\n');
      if FindInstalledOn(lines).Some? {
        LastUpdateOfFound(run);
      }
    }
  }

  /** A qualifying line is always reported, and what is reported is never the word "Unknown". */
  lemma LastUpdateOfFound(run: CommandResult)
    requires run.Completed? && run.returnCode == 0 && FindInstalledOn(SplitOn(run.stdout, '\n')).Some?
    ensures LastUpdate(run) == FindInstalledOn(SplitOn(run.stdout, '\n')).value != "Unknown"
  {
    var lines := SplitOn(run.stdout, '\n');
    var found := FindInstalledOn(lines);
    var i :| 0 <= i < |lines| && UpdateLine(lines[i]) && found.value == Join(" ", Tokens(lines[i])[1..]);
    StripGuardRedundant(run.stdout, i);
    JoinHasSpace(Tokens(lines[i])[1..]);
    UnknownHasNoSpace();
  }

  lemma UnknownHasNoSpace()
    ensures ' ' !in "Unknown"
  {
    assert forall k :: 0 <= k < |"Unknown"| ==> "Unknown"[k] != ' ';
  }

  /** The `stdout.strip()` test is implied by the line test: a qualifying line has a non-space character. */
  lemma {:induction false} StripGuardRedundant(stdout: string, i: int)
    requires 0 <= i < |SplitOn(stdout, '\n')| && UpdateLine(SplitOn(stdout, '\n')[i])
    ensures Strip(stdout) != []
  {
    var lines := SplitOn(stdout, '\n');
    var line := lines[i];
    var t := Tokens(line);
    TokensKeepText(line);
    assert t[0] != [] && t == [t[0]] + t[1..];
    assert Concat(t) == t[0] + Concat(t[1..]);
    var c := t[0][0];
    assert c in DropSpace(line) && !IsSpace(c);
    DropSpaceSubset(line, c);
    PieceInJoin(lines, '\n', i, c);
    var k :| 0 <= k < |stdout| && stdout[k] == c;
    StripNonEmpty(stdout, k);
  }

  lemma {:induction false} DropSpaceSubset(s: string, c: char)
    requires c in DropSpace(s)
    ensures c in s
  {
    if |s| > 0 && !(c == s[0]) {
      DropSpaceSubset(s[1..], c);
    }
  }

  /** A character of one piece of a join is a character of the joined string. */
  lemma {:induction false} PieceInJoin(parts: seq<string>, c: char, i: int, x: char)
    requires 0 <= i < |parts| && x in parts[i]
    ensures x in Join([c], parts)
  {
    if |parts| > 1 {
      JoinCons([c], parts[0], parts[1..]);
      assert parts == [parts[0]] + parts[1..];
      if i > 0 {
        PieceInJoin(parts[1..], c, i - 1, x);
      }
    }
  }

  /**
   `get_windows_install_date`: after a successful `find`, the text after the first colon with
   surrounding whitespace removed; "Unknown" when the run failed or the output has no colon
   (the `[1]` index raises and is caught).
   */
  function InstallDate(run: CommandResult): (r: string)
    ensures !(run.Completed? && run.returnCode == 0 && ':' in run.stdout) ==> r == "Unknown"
    ensures run.Completed? && run.returnCode == 0 && ':' in run.stdout ==>
              exists i :: 0 <= i < |run.stdout| && run.stdout[i] == ':' && ':' !in run.stdout[..i]
                          && IsStripOf(r, run.stdout[i + 1..])
  {
    if run.Completed? && run.returnCode == 0 then
      var parts := SplitOnce(run.stdout, ':');
      if |parts| > 1 then
        var i := |parts[0]|;
        assert run.stdout[..i] == parts[0] && run.stdout[i] == ':' && run.stdout[i + 1..] == parts[1];
        Strip(parts[1])
      else "Unknown"
    else "Unknown"
  }
}
