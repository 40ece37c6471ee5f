/**
 * The "export approved customers" button: the CSV text built from the
 * approved-customer list, a header line and one comma-joined row per
 * customer, joined by '\n', without quoting.
 */
module DashboardHeader {
  import opened Common
  import Text
  import Calendar

  /**
   * One approved customer as `getApprovedCustomerEmails` returns it. The
   * dates are what `new Date(...)` makes of the stored strings: a civil date,
   * or `None` for an invalid date.
   */
  datatype ApprovedCustomer = ApprovedCustomer(
    email: string,
    name: Option<string>,
    plan: string,
    startDate: Option<Calendar.Date>,
    endDate: Option<Calendar.Date>)

  const HeaderFields: seq<string> := ["Email", "Name", "Plan", "Start Date", "End Date"]

  /** `headers.join(',')`. */
  const HeaderLine: string := "Email,Name,Plan,Start Date,End Date"

  lemma HeaderLineIsJoinedHeaders()
    ensures Text.Join(HeaderFields, ',') == HeaderLine
  {
  }

  /** A date `format(..., 'yyyy-MM-dd')` can print: any valid date, whatever its year; an invalid one throws. */
  predicate Printable(d: Option<Calendar.Date>) {
    d.Some? && Calendar.ValidDate(d.value)
  }

  function PrintDate(d: Option<Calendar.Date>): string
    requires Printable(d)
  {
    Calendar.FormatDay(d.value.year, d.value.month, d.value.day)
  }

  /** The five fields of a row; a missing or empty name is the empty field. */
  function RowFields(c: ApprovedCustomer): (fs: seq<string>)
    requires Printable(c.startDate) && Printable(c.endDate)
    ensures |fs| == 5
    ensures fs[0] == c.email && fs[2] == c.plan
    ensures fs[1] == (if c.name.Some? then c.name.value else "")
    ensures fs[1] == "" <==> c.name.None? || c.name.value == ""
    ensures fs[3] == PrintDate(c.startDate) && fs[4] == PrintDate(c.endDate)
  {
    [c.email, if c.name.Some? then c.name.value else "", c.plan, PrintDate(c.startDate), PrintDate(c.endDate)]
  }

  function RowLine(c: ApprovedCustomer): string
    requires Printable(c.startDate) && Printable(c.endDate)
  {
    Text.Join(RowFields(c), ',')
  }

  function RowLines(cs: seq<ApprovedCustomer>): (ls: seq<string>)
    requires forall i :: 0 <= i < |cs| ==> Printable(cs[i].startDate) && Printable(cs[i].endDate)
    ensures |ls| == |cs|
    ensures forall i :: 0 <= i < |cs| ==> ls[i] == RowLine(cs[i])
  {
    if cs == [] then []
    else
      assert forall i :: 0 <= i < |cs[1..]| ==> cs[1..][i] == cs[i + 1];
      var rest := RowLines(cs[1..]);
      var ls := [RowLine(cs[0])] + rest;
      assert forall i :: 0 < i < |ls| ==> ls[i] == rest[i - 1];
      ls
  }

  /**
   * The CSV text, or `None` when some date is invalid: `format` throws a
   * RangeError there and the export stops with an error toast.
   */
  function CsvContent(cs: seq<ApprovedCustomer>): (r: Option<string>)
    ensures r.Some? <==> forall i :: 0 <= i < |cs| ==> Printable(cs[i].startDate) && Printable(cs[i].endDate)
  {
    if forall i :: 0 <= i < |cs| ==> Printable(cs[i].startDate) && Printable(cs[i].endDate) then
      Some(Text.Join([HeaderLine] + RowLines(cs), '\n'))
    else None
  }

  /** A printed date is digits and dashes only. */
  lemma {:induction false} PrintedDateHasNoSeparators(d: Option<Calendar.Date>, sep: char)
    requires Printable(d) && (sep == ',' || sep == '\n')
    ensures sep !in PrintDate(d)
  {
    var y := Text.PadZeros(Calendar.EraYear(d.value.year), 4);
    var m := Text.TwoDigits(d.value.month + 1);
    var dd := Text.TwoDigits(d.value.day);
    var s := PrintDate(d);
    assert s == y + "-" + m + "-" + dd;
    forall k | 0 <= k < |s| ensures s[k] != sep {
      if k < |y| {
        assert s[k] == y[k];
      } else if k == |y| || k == |y| + 3 {
      } else if k < |y| + 3 {
        assert s[k] == m[k - |y| - 1];
      } else {
        assert s[k] == dd[k - |y| - 4];
      }
    }
  }

  /** No field of the customers contains `sep`. */
  predicate FieldsFreeOf(cs: seq<ApprovedCustomer>, sep: char) {
    forall i :: 0 <= i < |cs| ==>
      sep !in cs[i].email && sep !in cs[i].plan && (cs[i].name.Some? ==> sep !in cs[i].name.value)
  }

  /** Splitting on ',' recovers a row's five fields in order, when none of them contains a comma. */
  lemma {:induction false} RowSplitsIntoFields(c: ApprovedCustomer)
    requires Printable(c.startDate) && Printable(c.endDate)
    requires FieldsFreeOf([c], ',')
    ensures Text.Split(RowLine(c), ',') == RowFields(c)
    ensures |Text.Split(RowLine(c), ',')| == 5
  {
    PrintedDateHasNoSeparators(c.startDate, ',');
    PrintedDateHasNoSeparators(c.endDate, ',');
    assert [c][0] == c;
    Text.SplitJoin(RowFields(c), ',');
  }

  /**
   * Splitting the file on '\n' gives the header line and then exactly one
   * line per customer, in input order, when no field contains a newline.
   */
  lemma {:induction false} LinesAreHeaderThenRows(cs: seq<ApprovedCustomer>)
    requires CsvContent(cs).Some?
    requires FieldsFreeOf(cs, '\n')
    ensures Text.Split(CsvContent(cs).value, '\n') == [HeaderLine] + RowLines(cs)
    ensures |Text.Split(CsvContent(cs).value, '\n')| == |cs| + 1
    ensures Text.Split(CsvContent(cs).value, '\n')[0] == HeaderLine
  {
    var lines := [HeaderLine] + RowLines(cs);
    LinesHaveNoNewline(cs);
    assert CsvContent(cs).value == Text.Join(lines, '\n');
    Text.SplitJoin(lines, '\n');
  }

  /** Neither the header nor any row holds a newline, when no field does. */
  lemma {:induction false} LinesHaveNoNewline(cs: seq<ApprovedCustomer>)
    requires forall i :: 0 <= i < |cs| ==> Printable(cs[i].startDate) && Printable(cs[i].endDate)
    requires FieldsFreeOf(cs, '\n')
    ensures Text.FreeOf([HeaderLine] + RowLines(cs), '\n')
  {
    RowsHaveNoNewline(cs);
    HeaderLineHasNoNewline();
    PrependKeepsFreeOf(HeaderLine, RowLines(cs), '\n');
  }

  lemma HeaderLineHasNoNewline()
    ensures '\n' !in HeaderLine
  {
    forall k | 0 <= k < |HeaderLine| ensures HeaderLine[k] != '\n' { }
  }

  lemma PrependKeepsFreeOf(h: string, xs: seq<string>, c: char)
    requires c !in h && Text.FreeOf(xs, c)
    ensures Text.FreeOf([h] + xs, c)
  {
    forall i | 0 < i < |[h] + xs| ensures c !in ([h] + xs)[i] {
      assert ([h] + xs)[i] == xs[i - 1];
    }
  }

  lemma {:induction false} RowsHaveNoNewline(cs: seq<ApprovedCustomer>)
    requires forall i :: 0 <= i < |cs| ==> Printable(cs[i].startDate) && Printable(cs[i].endDate)
    requires FieldsFreeOf(cs, '\n')
    ensures Text.FreeOf(RowLines(cs), '\n')
  {
    if cs != [] {
      var c := cs[0];
      assert FieldsFreeOf(cs[1..], '\n') by {
        forall i | 0 <= i < |cs[1..]| ensures cs[1..][i] == cs[i + 1] { }
      }
      RowsHaveNoNewline(cs[1..]);
      RowLineHasNoNewline(c);
      assert RowLines(cs) == [RowLine(c)] + RowLines(cs[1..]);
    }
  }

  lemma {:induction false} RowLineHasNoNewline(c: ApprovedCustomer)
    requires Printable(c.startDate) && Printable(c.endDate)
    requires FieldsFreeOf([c], '\n')
    ensures '\n' !in RowLine(c)
  {
    assert [c][0] == c;
    PrintedDateHasNoSeparators(c.startDate, '\n');
    PrintedDateHasNoSeparators(c.endDate, '\n');
    var fs := RowFields(c);
    assert forall k :: 0 <= k < |fs| ==> '\n' !in fs[k];
    JoinKeepsOut(fs, ',', '\n');
  }

  /** Joining parts that lack a character, with a different separator, does not introduce it. */
  lemma {:induction false} JoinKeepsOut(xs: seq<string>, sep: char, c: char)
    requires sep != c && forall k :: 0 <= k < |xs| ==> c !in xs[k]
    ensures c !in Text.Join(xs, sep)
  {
    if |xs| > 1 {
      JoinKeepsOut(xs[1..], sep, c);
      assert Text.Join(xs, sep) == xs[0] + [sep] + Text.Join(xs[1..], sep);
    }
  }
}
