/** `exportCSV` (src/pages/Dashboard.tsx, src/pages/Dashboard.jsx,
    src/pages/RedesignedDashboard.tsx): one header line from the row object's
    keys and one comma-joined, unquoted line per filtered entry. Exporting an
    empty selection fails when it reads `rows[0]`. How a number of hours is
    written out (`String(hours)`) is a parameter. */
module CsvExport {

  import opened Wrappers
  import opened Calendar
  import opened Records
  import opened Text
  import ListFilters

  /** `Object.keys(rows[0]).join(',')`. */
  const Header: string := "Date,Project,FinancialYear,Hours,Notes"

  /** Two-digit month or day. */
  function Pad2(n: nat): string
  {
    PadStart(NatToString(n), 2, '0')
  }

  /** The stored `YYYY-MM-DD` text of a date. */
  function IsoDate(d: Date): string
  {
    PadStart(IntToString(d.year), 4, '0') + "-" + Pad2(d.month) + "-" + Pad2(d.day)
  }

  /** The row object's values, in key order: date, project name, financial
      year, hours and notes. An unknown project gives empty name and year, and
      missing notes join as an empty field. */
  function Cells(e: TimeEntry, project: Option<Project>, render: real -> string): (r: seq<string>)
    ensures |r| == 5
    ensures r[0] == IsoDate(e.date) && r[3] == render(e.hours) && r[4] == e.notes.GetOr("")
    ensures project.None? ==> r[1] == "" && r[2] == ""
    ensures project.Some? ==> r[1] == project.value.name && r[2] == project.value.financialYear
  {
    var name := if project.Some? then project.value.name else "";
    var year := if project.Some? then project.value.financialYear else "";
    [IsoDate(e.date), name, year, render(e.hours), e.notes.GetOr("")]
  }

  /** `Object.values(row).join(',')`. */
  function Row(e: TimeEntry, projects: seq<Project>, render: real -> string): string
  {
    Join(Cells(e, FindProject(projects, e.projectId), render), ',')
  }

  function Rows(entries: seq<TimeEntry>, projects: seq<Project>, render: real -> string): (r: seq<string>)
    ensures |r| == |entries| && forall i :: 0 <= i < |entries| ==> r[i] == Row(entries[i], projects, render)
  {
    seq(|entries|, i requires 0 <= i < |entries| => Row(entries[i], projects, render))
  }

  /** The export: the CSV text, or the `TypeError` an empty selection raises. */
  datatype Export = Csv(text: string) | EmptySelection

  /** `header + '\n' + rows.join('\n')`. */
  function ExportCsv(filtered: seq<TimeEntry>, projects: seq<Project>, render: real -> string): (r: Export)
    ensures r.EmptySelection? <==> |filtered| == 0
    ensures r.Csv? ==> |r.text| > |Header| && r.text[..|Header|] == Header && r.text[|Header|] == '\n'
  {
    if |filtered| == 0 then EmptySelection
    else
      var text := Header + "\n" + Join(Rows(filtered, projects, render), '\n');
      assert text[..|Header|] == Header;
      Csv(text)
  }

  /** Text made only of digits and minus signs. */
  predicate DateText(s: string)
  {
    forall i :: 0 <= i < |s| ==> IsDigit(s[i]) || s[i] == '-'
  }

  lemma IntToDateText(n: int)
    ensures DateText(IntToString(n))
  {
    var s := IntToString(n);
    if n < 0 {
      forall i | 1 <= i < |s| ensures IsDigit(s[i]) {
        assert s[1..][i - 1] == s[i];
      }
    }
  }

  lemma PadDateText(s: string, width: nat)
    requires DateText(s)
    ensures DateText(PadStart(s, width, '0'))
  {
    var r := PadStart(s, width, '0');
    forall i | |r| - |s| <= i < |r| ensures IsDigit(r[i]) || r[i] == '-' {
      assert r[i] == r[|r| - |s|..][i - (|r| - |s|)];
    }
  }

  /** A date's text holds only digits and minus signs, so neither of the
      file's separators. */
  lemma IsoDateHasNoSeparators(d: Date)
    ensures ',' !in IsoDate(d) && '\n' !in IsoDate(d)
  {
    IntToDateText(d.year);
    var y := PadStart(IntToString(d.year), 4, '0');
    PadDateText(IntToString(d.year), 4);
    var m := Pad2(d.month);
    PadDateText(NatToString(d.month), 2);
    var dd := Pad2(d.day);
    PadDateText(NatToString(d.day), 2);
    ConcatDateText(y, "-");
    ConcatDateText(y + "-", m);
    ConcatDateText(y + "-" + m, "-");
    ConcatDateText(y + "-" + m + "-", dd);
    var t := IsoDate(d);
    assert forall i :: 0 <= i < |t| ==> t[i] != ',' && t[i] != '\n';
  }

  lemma ConcatDateText(a: string, b: string)
    requires DateText(a) && DateText(b)
    ensures DateText(a + b)
  {
    forall i | |a| <= i < |a + b| ensures IsDigit((a + b)[i]) || (a + b)[i] == '-' {
      assert (a + b)[i] == b[i - |a|];
    }
  }

  /** No free-text field of the entry (project name, financial year, hours
      text, notes) holds a comma or a line break. */
  predicate PlainFields(e: TimeEntry, projects: seq<Project>, render: real -> string)
  {
    var cells := Cells(e, FindProject(projects, e.projectId), render);
    forall i :: 1 <= i < 5 ==> ',' !in cells[i] && '\n' !in cells[i]
  }

  /** Reading the file back: when no name, year, hours text or note holds a
      comma or a line break, splitting the text at line breaks gives the
      header and one line per filtered entry, in order, and splitting each of
      those lines at commas gives that entry's five fields. */
  lemma CsvRoundTrip(filtered: seq<TimeEntry>, projects: seq<Project>, render: real -> string)
    requires |filtered| > 0
    requires forall e :: e in filtered ==> PlainFields(e, projects, render)
    ensures var lines := Split(ExportCsv(filtered, projects, render).text, '\n');
      lines == [Header] + Rows(filtered, projects, render)
    ensures forall i :: 0 <= i < |filtered| ==>
      Split(Rows(filtered, projects, render)[i], ',') == Cells(filtered[i], FindProject(projects, filtered[i].projectId), render)
  {
    var rows := Rows(filtered, projects, render);
    forall i | 0 <= i < |filtered|
      ensures '\n' !in rows[i]
      ensures Split(rows[i], ',') == Cells(filtered[i], FindProject(projects, filtered[i].projectId), render)
    {
      assert filtered[i] in filtered;
      RowRoundTrip(filtered[i], projects, render);
    }
    HeaderHasNoBreak();
    LinesRoundTrip(Header, rows);
  }

  /** One line: it holds no line break and splits back into its fields. */
  lemma RowRoundTrip(e: TimeEntry, projects: seq<Project>, render: real -> string)
    requires PlainFields(e, projects, render)
    ensures '\n' !in Row(e, projects, render)
    ensures Split(Row(e, projects, render), ',') == Cells(e, FindProject(projects, e.projectId), render)
  {
    var cells := Cells(e, FindProject(projects, e.projectId), render);
    IsoDateHasNoSeparators(e.date);
    assert forall i :: 0 <= i < |cells| ==> ',' !in cells[i] && '\n' !in cells[i];
    JoinExcludes(cells, ',', '\n');
    SplitJoin(cells, ',');
  }

  lemma HeaderHasNoBreak()
    ensures '\n' !in Header
  {
    assert forall i :: 0 <= i < |Header| ==> Header[i] != '\n';
  }

  /** The whole text: a first line and the lines after it, none holding a
      line break, split back at the line breaks. */
  lemma LinesRoundTrip(first: string, rows: seq<string>)
    requires |rows| > 0
    requires '\n' !in first
    requires forall i :: 0 <= i < |rows| ==> '\n' !in rows[i]
    ensures Split(first + "\n" + Join(rows, '\n'), '\n') == [first] + rows
  {
    var parts := [first] + rows;
    assert parts[1..] == rows;
    assert Join(parts, '\n') == first + "\n" + Join(rows, '\n');
    SplitJoin(parts, '\n');
  }

  /** The redesigned dashboard filters again inside `exportCSV`, with the
      same callback as its displayed list, so the exported lines are the
      displayed entries, one each, in display order. */
  lemma ExportMatchesDisplayedList(entries: seq<TimeEntry>, projects: seq<Project>, filterProject: string,
                                   filterYear: string, render: real -> string)
    requires forall e :: e in entries ==> PlainFields(e, projects, render)
    ensures var shown := ListFilters.FilterEntries(entries, projects, filterProject, filterYear);
      var csv := ExportCsv(shown, projects, render);
      (|shown| == 0 <==> csv.EmptySelection?)
      && (|shown| > 0 ==> Split(csv.text, '\n')[1..] == Rows(shown, projects, render))
  {
    var shown := ListFilters.FilterEntries(entries, projects, filterProject, filterYear);
    if |shown| > 0 {
      CsvRoundTrip(shown, projects, render);
    }
  }
}
