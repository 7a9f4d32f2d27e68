/** The report encoder: deletion candidates as comma-separated text, and the report's file name.
    Fields are quoted but never escaped, and records are separated by a line feed. */
module ReportService {
  import opened Outcomes
  import opened Types
  import Text

  /** The whole report when there is nothing to delete. */
  const NoCandidatesText := "No repositories recommended for deletion."

  /** The report's columns, in order. */
  const Columns := ["Repository Name", "URL", "Reason", "Last Updated", "Created At"]

  /** The column names separated by commas, without the line feed that ends them. */
  const HeaderText := Text.Join(Columns, ",")

  /** The header line as written. */
  const HeaderLine := HeaderText + "\n"

  /** `"${x}"`: a field between double quotes, with nothing inside it escaped. */
  function Quote(field: string): string
  {
    "\"" + field + "\""
  }

  /** A record of five quoted fields separated by commas. */
  function QuotedRecord(name: string, url: string, reason: string, updated: string, created: string): string
  {
    Quote(name) + "," + Quote(url) + "," + Quote(reason) + "," + Quote(updated) + "," + Quote(created)
  }

  /** A nullable string in a template literal: `null` is written as the text "null". */
  function TemplateText(text: Option<string>): (r: string)
    ensures text.Some? ==> r == text.value
    ensures text.None? ==> r == "null"
  {
    if text.Some? then text.value else "null"
  }

  /** The record of one candidate: name, URL, reason and both timestamps, each between double
      quotes, so fourteen characters more than the five texts; not the description.
      `RecordFields` splits it back into those texts. */
  function Row(c: DeletionCandidate): (r: string)
    ensures |r| == |c.repo.name| + |c.repo.htmlUrl| + |c.reason| + |TemplateText(c.repo.updatedAt)| + |TemplateText(c.repo.createdAt)| + 14
    ensures r[0] == '"' && r[|r| - 1] == '"'
    ensures r[..|c.repo.name| + 3] == Quote(c.repo.name) + ","
  {
    QuotedRecord(c.repo.name, c.repo.htmlUrl, c.reason, TemplateText(c.repo.updatedAt), TemplateText(c.repo.createdAt))
  }

  function Rows(candidates: seq<DeletionCandidate>): (r: seq<string>)
    ensures |r| == |candidates|
    ensures forall i :: 0 <= i < |r| ==> r[i] == Row(candidates[i])
  {
    seq(|candidates|, i requires 0 <= i < |candidates| => Row(candidates[i]))
  }

  /** `generateCsvContent`: the sentinel for no candidates, else the header line followed by one
      record per candidate, in order, joined by line feeds with none after the last. */
  function GenerateCsvContent(candidates: seq<DeletionCandidate>): (r: string)
    ensures candidates == [] ==> r == NoCandidatesText
    ensures candidates != [] ==> HeaderLine <= r
  {
    if |candidates| == 0 then NoCandidatesText
    else HeaderLine + Text.Join(Rows(candidates), "\n")
  }

  /** None of the five texts written for `c` contains `ch`. */
  predicate FieldsAvoid(c: DeletionCandidate, ch: char)
  {
    && ch !in c.repo.name && ch !in c.repo.htmlUrl && ch !in c.reason
    && ch !in TemplateText(c.repo.updatedAt) && ch !in TemplateText(c.repo.createdAt)
  }

  /** `c` and `d` agree on the five texts written for them. */
  predicate SameFields(c: DeletionCandidate, d: DeletionCandidate)
  {
    && c.repo.name == d.repo.name && c.repo.htmlUrl == d.repo.htmlUrl && c.reason == d.reason
    && c.repo.updatedAt == d.repo.updatedAt && c.repo.createdAt == d.repo.createdAt
  }

  /** The report splits back into its lines: the header, then one record per candidate in order,
      provided no field contains a line feed. So n candidates give exactly n + 1 lines. */
  lemma CsvLines(candidates: seq<DeletionCandidate>)
    requires candidates != []
    requires forall i :: 0 <= i < |candidates| ==> FieldsAvoid(candidates[i], '\n')
    ensures Text.Split(GenerateCsvContent(candidates), '\n') == [HeaderText] + Rows(candidates)
    ensures Text.Count(GenerateCsvContent(candidates), '\n') == |candidates|
  {
    var lines := [HeaderText] + Rows(candidates);
    forall i | 0 <= i < |lines|
      ensures '\n' !in lines[i]
    {
      if i == 0 {
        assert lines[i] == HeaderText;
        HeaderHasNoLineFeed();
      } else {
        assert lines[i] == Row(candidates[i - 1]);
        RowAvoids(candidates[i - 1], '\n');
      }
    }
    assert lines[1..] == Rows(candidates);
    assert GenerateCsvContent(candidates) == Text.Join(lines, "\n");
    Text.SplitJoin(lines, '\n');
    Text.CountJoin(lines, '\n');
  }

  /** No column name contains a line feed or a comma. */
  lemma ColumnsAvoid(ch: char)
    requires ch == '\n' || ch == ','
    ensures forall i :: 0 <= i < |Columns| ==> ch !in Columns[i]
  {
    assert Columns[0] == "Repository" + " Name";
    assert Columns[3] == "Last" + " Updated";
  }

  lemma HeaderHasNoLineFeed()
    ensures '\n' !in HeaderText
  {
    ColumnsAvoid('\n');
    Text.JoinAvoids(Columns, ",", '\n');
  }

  /** The header splits at its commas into the column names. */
  lemma HeaderColumns()
    ensures Text.Split(HeaderText, ',') == Columns
  {
    ColumnsAvoid(',');
    Text.SplitJoin(Columns, ',');
  }

  lemma RowAvoids(c: DeletionCandidate, ch: char)
    requires FieldsAvoid(c, ch)
    requires ch != '"' && ch != ','
    ensures ch !in Row(c)
  {
  }

  /** Splitting a record at its double quotes gives back each field verbatim, between the commas
      that separate them, provided no field contains a double quote. */
  lemma RecordFields(c: DeletionCandidate)
    requires FieldsAvoid(c, '"')
    ensures Text.Split(Row(c), '"') == ["", c.repo.name, ",", c.repo.htmlUrl, ",", c.reason, ",",
                                        TemplateText(c.repo.updatedAt), ",", TemplateText(c.repo.createdAt), ""]
  {
    SplitRecord(c.repo.name, c.repo.htmlUrl, c.reason, TemplateText(c.repo.updatedAt), TemplateText(c.repo.createdAt));
  }

  lemma SplitQuoted(pre: string, x: string, rest: string)
    requires '"' !in pre && '"' !in x
    ensures Text.Split(pre + Quote(x) + rest, '"') == [pre, x] + Text.Split(rest, '"')
  {
    var q := '"';
    assert pre + Quote(x) + rest == pre + [q] + (x + [q] + rest);
    Text.SplitAtFirst(pre, q, x + [q] + rest);
    Text.SplitAtFirst(x, q, rest);
  }

  lemma RecordChain(a: string, b: string, c: string, d: string, e: string)
    ensures QuotedRecord(a, b, c, d, e)
      == "" + Quote(a) + ("," + Quote(b) + ("," + Quote(c) + ("," + Quote(d) + ("," + Quote(e) + ""))))
  {
  }

  lemma SplitRecord(a: string, b: string, c: string, d: string, e: string)
    requires '"' !in a && '"' !in b && '"' !in c && '"' !in d && '"' !in e
    ensures Text.Split(QuotedRecord(a, b, c, d, e), '"') == ["", a, ",", b, ",", c, ",", d, ",", e, ""]
  {
    var t4 := "," + Quote(e) + "";
    var t3 := "," + Quote(d) + t4;
    var t2 := "," + Quote(c) + t3;
    var t1 := "," + Quote(b) + t2;
    RecordChain(a, b, c, d, e);
    Text.SplitFree("", '"');
    SplitQuoted(",", e, "");
    SplitQuoted(",", d, t4);
    SplitQuoted(",", c, t3);
    SplitQuoted(",", b, t2);
    SplitQuoted("", a, t1);
  }

  /** Without escaping, different candidates can give the same record: a name ending in `x","y`
      and a URL `z` are written exactly as the name `x` and the URL `y","z`. */
  lemma RecordsAmbiguous(c: DeletionCandidate, x: string, y: string, z: string)
    ensures var sep := "\",\"";
      Row(c.(repo := c.repo.(name := x + sep + y, htmlUrl := z)))
        == Row(c.(repo := c.repo.(name := x, htmlUrl := y + sep + z)))
  {
    var sep := "\",\"";
    assert Quote(x + sep + y) + "," + Quote(z) == Quote(x) + "," + Quote(y + sep + z);
  }

  /** The description and the default branch never reach the report. */
  lemma DescriptionIgnored(candidates: seq<DeletionCandidate>, others: seq<DeletionCandidate>)
    requires |candidates| == |others|
    requires forall i :: 0 <= i < |candidates| ==> SameFields(candidates[i], others[i])
    ensures GenerateCsvContent(candidates) == GenerateCsvContent(others)
  {
    assert Rows(candidates) == Rows(others);
  }

  /** `toISOString().replace(/[:.]/g, '-')`: every colon and full stop becomes a hyphen. */
  function FileTimestamp(iso: string): (r: string)
    ensures |r| == |iso|
    ensures forall i :: 0 <= i < |iso| ==> r[i] == (if iso[i] == ':' || iso[i] == '.' then '-' else iso[i])
    ensures ':' !in r && '.' !in r
  {
    if iso == [] then []
    else [if iso[0] == ':' || iso[0] == '.' then '-' else iso[0]] + FileTimestamp(iso[1..])
  }

  /** The report's file name: the stem, a hyphen, the timestamp made safe, and ".csv". */
  function ReportFileName(stem: string, iso: string): (r: string)
    ensures |r| == |stem| + 1 + |iso| + 4
    ensures r[..|stem| + 1] == stem + "-"
    ensures r[|stem| + 1..|stem| + 1 + |iso|] == FileTimestamp(iso)
    ensures r[|stem| + 1 + |iso|..] == ".csv"
  {
    stem + "-" + FileTimestamp(iso) + ".csv"
  }

  /** A file the report service wrote. */
  datatype ReportFile = ReportFile(name: string, content: string)

  /** `generateDeletionReport`: writes the report for the candidates at clock reading `now` with
      `write`, and throws what the write throws. A file is written even when there is nothing to
      delete; it then holds only the sentinel text. */
  function GenerateDeletionReport(candidates: seq<DeletionCandidate>, filename: string, now: string,
                                  write: (string, string) -> Outcome<()>): (r: Outcome<ReportFile>)
    ensures r.Ok? <==> write(ReportFileName(filename, now), GenerateCsvContent(candidates)).Ok?
    ensures r.Fail? ==> r.error == write(ReportFileName(filename, now), GenerateCsvContent(candidates)).error
    ensures r.Ok? ==> r.value.name == ReportFileName(filename, now) && r.value.content == GenerateCsvContent(candidates)
    ensures r.Ok? && candidates == [] ==> r.value.content == NoCandidatesText
    ensures r.Ok? ==> ':' !in r.value.name[|filename| + 1..|filename| + 1 + |now|] && '.' !in r.value.name[|filename| + 1..|filename| + 1 + |now|]
  {
    var name := ReportFileName(filename, now);
    var content := GenerateCsvContent(candidates);
    match write(name, content)
    case Fail(e) => Fail(e)
    case Ok(_) => Ok(ReportFile(name, content))
  }

  /** Two timestamps of the same shape (colons and full stops at the same places, as in any two
      ISO 8601 texts of the same form) that differ give different file names. */
  lemma FileNamesDistinct(stem: string, iso1: string, iso2: string)
    requires |iso1| == |iso2|
    requires forall i :: 0 <= i < |iso1| && (iso1[i] in ":." || iso2[i] in ":.") ==> iso1[i] == iso2[i]
    requires iso1 != iso2
    ensures ReportFileName(stem, iso1) != ReportFileName(stem, iso2)
  {
    var i :| 0 <= i < |iso1| && iso1[i] != iso2[i];
    assert FileTimestamp(iso1)[i] != FileTimestamp(iso2)[i];
  }
}
