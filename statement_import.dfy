/**
 * The statement import form: from the rows of a CSV file to a column mapping,
 * a preview of the drafts to create, the merchant rules to remember, and the
 * drafts themselves.
 */
module StatementImport {
  import opened Common
  import opened Text
  import opened Calendar
  import opened Amounts
  import opened MerchantRules
  import opened CsvParser
  import opened Drafts

  // ---------------------------------------------------------------------------
  // guessColumn

  /** The header keywords tried for each column (each regular expression is a plain word). */
  const DateKeywords: seq<string> := ["date", "posted", "transaction"]
  const AmountKeywords: seq<string> := ["amount", "debit", "credit", "value"]
  const MerchantKeywords: seq<string> := ["merchant", "description", "payee", "name"]
  const CategoryKeywords: seq<string> := ["category", "type"]

  /** The lower-cased header contains one of the keywords. */
  predicate HeaderMatches(header: string, keywords: seq<string>) {
    exists p :: 0 <= p < |keywords| && Contains(ToLower(header), keywords[p])
  }

  /** Header `i` matches and no earlier header does. */
  predicate FirstHeaderAt(headers: seq<string>, i: int, keywords: seq<string>) {
    0 <= i < |headers| && HeaderMatches(headers[i], keywords)
    && forall j :: 0 <= j < i ==> !HeaderMatches(headers[j], keywords)
  }

  /** `headers.findIndex(...)` for the first header matching a keyword. */
  function GuessIndex(headers: seq<string>, keywords: seq<string>): (r: Option<nat>)
    ensures r.None? <==> forall i :: 0 <= i < |headers| ==> !HeaderMatches(headers[i], keywords)
    ensures r.Some? ==> FirstHeaderAt(headers, r.value, keywords)
  {
    if headers == [] then None
    else if HeaderMatches(headers[0], keywords) then Some(0)
    else
      match GuessIndex(headers[1..], keywords)
      case None => None
      case Some(i) =>
        assert forall j :: 1 <= j < i + 1 ==> headers[j] == headers[1..][j - 1];
        Some(i + 1)
  }

  /** `guessColumn`: the earliest header, in header order, that matches; "" when none does. */
  function GuessColumn(headers: seq<string>, keywords: seq<string>): (r: string)
    ensures r == "" || r in headers
    ensures (forall i :: 0 <= i < |headers| ==> !HeaderMatches(headers[i], keywords)) ==> r == ""
    ensures (exists i :: 0 <= i < |headers| && HeaderMatches(headers[i], keywords)) ==>
      exists i :: FirstHeaderAt(headers, i, keywords) && r == headers[i]
  {
    match GuessIndex(headers, keywords)
    case None => ""
    case Some(i) => headers[i]
  }

  /** The column chosen for each field; "" means unmapped. */
  datatype Mapping = Mapping(date: string, amount: string, merchant: string, category: string)

  /** The mapping guessed from the headers of a freshly read CSV file. */
  function GuessMapping(headers: seq<string>): Mapping {
    Mapping(GuessColumn(headers, DateKeywords), GuessColumn(headers, AmountKeywords),
            GuessColumn(headers, MerchantKeywords), GuessColumn(headers, CategoryKeywords))
  }

  // ---------------------------------------------------------------------------
  // Reading a CSV file into headers, rows and a mapping

  /** `Column N` for the header cell at `index` when it is empty. */
  function ColumnLabel(index: nat): string {
    "Column " + NatToString(index + 1)
  }

  /** `data[0].map((header, index) => header || 'Column ' + (index + 1))`. */
  function HeaderRow(first: Row): (r: seq<string>)
    ensures |r| == |first|
    ensures forall i :: 0 <= i < |r| ==> r[i] != ""
    ensures forall i :: 0 <= i < |r| && first[i] != "" ==> r[i] == first[i]
  {
    seq(|first|, i requires 0 <= i < |first| => if first[i] != "" then first[i] else ColumnLabel(i))
  }

  /** What the form holds once a CSV file has been read. */
  datatype Sheet = Sheet(headers: seq<string>, rows: Table, mapping: Mapping)

  const CsvUnreadable := "Unable to read this CSV. Please check the format."

  /** Each field of the mapping is unmapped or names one of the headers. */
  predicate MapsHeaders(m: Mapping, headers: seq<string>) {
    (m.date == "" || m.date in headers) && (m.amount == "" || m.amount in headers)
    && (m.merchant == "" || m.merchant in headers) && (m.category == "" || m.category in headers)
  }

  /**
   * The CSV branch of `handleFileChange` after `parseCsv`: fewer than two rows is
   * an error; otherwise the first row gives the headers, the rest are the data
   * rows, and the mapping is guessed.
   */
  function LoadSheet(data: Table): (r: Result<Sheet>)
    ensures r.Err? <==> |data| < 2
    ensures r.Err? ==> r.message == CsvUnreadable
    ensures r.Ok? ==> |r.value.headers| == |data[0]| && r.value.rows == data[1..]
    ensures r.Ok? ==> forall i :: 0 <= i < |r.value.headers| ==> r.value.headers[i] != ""
    ensures r.Ok? ==> MapsHeaders(r.value.mapping, r.value.headers)
  {
    if |data| < 2 then Err(CsvUnreadable)
    else
      var headers := HeaderRow(data[0]);
      Ok(Sheet(headers, data[1..], GuessMapping(headers)))
  }

  /** The CSV branch of `handleFileChange`: `parseCsv` on the file text, then `LoadSheet`. */
  method ReadCsvFile(text: string) returns (r: Result<Sheet>)
    ensures r == LoadSheet(ParseCsvSpec(text))
  {
    var data := ParseCsv(text);
    r := LoadSheet(data);
  }

  // ---------------------------------------------------------------------------
  // parsedRows: the mapped cells of every data row

  datatype Field = DateField | AmountField | MerchantField | CategoryField

  /** The header chosen for a field. */
  function Column(m: Mapping, f: Field): string {
    match f
    case DateField => m.date
    case AmountField => m.amount
    case MerchantField => m.merchant
    case CategoryField => m.category
  }

  /** `headers.findIndex((header) => header === name)`, with `None` for -1. */
  function FindHeader(headers: seq<string>, name: string): (r: Option<nat>)
    ensures r.None? <==> name !in headers
    ensures r.Some? ==> r.value < |headers| && headers[r.value] == name
    ensures r.Some? ==> forall j :: 0 <= j < r.value ==> headers[j] != name
  {
    if headers == [] then None
    else if headers[0] == name then Some(0)
    else
      match FindHeader(headers[1..], name)
      case None => None
      case Some(i) =>
        assert forall j :: 1 <= j < i + 1 ==> headers[j] == headers[1..][j - 1];
        Some(i + 1)
  }

  /** `index >= 0 ? row[index] || '' : ''`: a missing cell reads as "". */
  function CellAt(row: Row, index: Option<nat>): string {
    match index
    case None => ""
    case Some(i) => if i < |row| then row[i] else ""
  }

  /** A data row with the cells of the four mapped columns. */
  datatype MappedRow = MappedRow(raw: Row, date: string, amount: string, merchant: string, category: string)

  function FieldOf(r: MappedRow, f: Field): string {
    match f
    case DateField => r.date
    case AmountField => r.amount
    case MerchantField => r.merchant
    case CategoryField => r.category
  }

  function MapRow(row: Row, headers: seq<string>, m: Mapping): MappedRow {
    MappedRow(row,
      CellAt(row, FindHeader(headers, m.date)), CellAt(row, FindHeader(headers, m.amount)),
      CellAt(row, FindHeader(headers, m.merchant)), CellAt(row, FindHeader(headers, m.category)))
  }

  /** `parsedRows`: nothing without headers, otherwise one mapped row per data row, in order. */
  function ParsedRows(sheet: Sheet): (r: seq<MappedRow>)
    ensures sheet.headers == [] ==> r == []
    ensures sheet.headers != [] ==> |r| == |sheet.rows|
    ensures forall i :: 0 <= i < |r| ==> r[i].raw == sheet.rows[i]
  {
    if sheet.headers == [] then []
    else seq(|sheet.rows|, i requires 0 <= i < |sheet.rows| => MapRow(sheet.rows[i], sheet.headers, sheet.mapping))
  }

  /**
   * A mapped field reads the cell under the first header equal to the chosen column
   * name, and reads "" when that name is not a header or the row is too short.
   */
  lemma ParsedRowField(sheet: Sheet, i: nat, f: Field)
    requires sheet.headers != [] && i < |sheet.rows|
    ensures Column(sheet.mapping, f) !in sheet.headers ==> FieldOf(ParsedRows(sheet)[i], f) == ""
    ensures forall j ::
      (0 <= j < |sheet.headers| && sheet.headers[j] == Column(sheet.mapping, f)
       && forall k :: 0 <= k < j ==> sheet.headers[k] != Column(sheet.mapping, f))
      ==> FieldOf(ParsedRows(sheet)[i], f) == (if j < |sheet.rows[i]| then sheet.rows[i][j] else "")
  {
    var r := ParsedRows(sheet)[i];
    assert r == MapRow(sheet.rows[i], sheet.headers, sheet.mapping);
    var idx := FindHeader(sheet.headers, Column(sheet.mapping, f));
    assert FieldOf(r, f) == CellAt(sheet.rows[i], idx);
    forall j | 0 <= j < |sheet.headers| && sheet.headers[j] == Column(sheet.mapping, f)
              && (forall k :: 0 <= k < j ==> sheet.headers[k] != Column(sheet.mapping, f))
      ensures idx == Some(j)
    {
      assert idx.Some?;
    }
  }

  // ---------------------------------------------------------------------------
  // normalizeDate

  /**
   * The parts of JavaScript's `Date` the import relies on, left abstract:
   *  - `parse`: `new Date(text)`, read back as the day part of `toISOString()`,
   *    or `None` for an Invalid Date;
   *  - `number`: `Number(text)`, `None` for NaN;
   *  - `isoDay`: the day part of `toISOString()` for a local calendar day, `None`
   *    when the day is outside the range `Date` can hold.
   */
  datatype DateLib = DateLib(
    parse: string -> Option<string>,
    number: string -> Option<real>,
    isoDay: CalendarDate -> Option<string>)

  predicate IsDateSeparator(c: char) { c == '/' || c == '-' }

  predicate NoSeparator(p: string) {
    forall k :: 0 <= k < |p| ==> !IsDateSeparator(p[k])
  }

  /** `split(/[/-]/)`: the pieces between separators, including empty ones. */
  function SplitDate(s: string): (r: seq<string>)
    ensures |r| >= 1
    ensures forall i :: 0 <= i < |r| ==> NoSeparator(r[i])
  {
    if s == [] then [""]
    else
      var rest := SplitDate(s[1..]);
      if IsDateSeparator(s[0]) then [""] + rest
      else [[s[0]] + rest[0]] + rest[1..]
  }

  /** The pieces written back with one separator between each two. */
  function JoinDate(parts: seq<string>, sep: char): string
    requires parts != []
  {
    if |parts| == 1 then parts[0] else parts[0] + [sep] + JoinDate(parts[1..], sep)
  }

  /** A piece without separators stays glued to the first piece of what follows it. */
  lemma {:induction false} SplitAfterPiece(a: string, rest: string)
    requires NoSeparator(a)
    ensures SplitDate(a + rest) == [a + SplitDate(rest)[0]] + SplitDate(rest)[1..]
  {
    if a == [] {
      assert a + rest == rest;
      assert a + SplitDate(rest)[0] == SplitDate(rest)[0];
    } else {
      assert (a + rest)[0] == a[0];
      assert (a + rest)[1..] == a[1..] + rest;
      SplitAfterPiece(a[1..], rest);
      assert [a[0]] + (a[1..] + SplitDate(rest)[0]) == a + SplitDate(rest)[0];
    }
  }

  /** Splitting undoes joining, whichever of `/` and `-` separates the pieces. */
  lemma {:induction false} SplitJoin(parts: seq<string>, sep: char)
    requires parts != [] && IsDateSeparator(sep)
    requires forall i :: 0 <= i < |parts| ==> NoSeparator(parts[i])
    ensures SplitDate(JoinDate(parts, sep)) == parts
  {
    if |parts| == 1 {
      SplitAfterPiece(parts[0], "");
      assert parts[0] + "" == parts[0];
    } else {
      var tail := JoinDate(parts[1..], sep);
      assert JoinDate(parts, sep) == parts[0] + ([sep] + tail);
      SplitAfterPiece(parts[0], [sep] + tail);
      assert ([sep] + tail)[1..] == tail;
      SplitJoin(parts[1..], sep);
      assert SplitDate([sep] + tail) == [""] + parts[1..];
      assert parts[0] + "" == parts[0];
    }
  }

  /** `parts.map((part) => part.trim())`. */
  function TrimAll(parts: seq<string>): (r: seq<string>)
    ensures |r| == |parts|
    ensures forall i :: 0 <= i < |r| ==> r[i] == Trim(parts[i])
  {
    seq(|parts|, i requires 0 <= i < |parts| => Trim(parts[i]))
  }

  /** ToIntegerOrInfinity on a finite number: truncation toward zero. */
  function Truncate(x: real): int {
    if x >= 0.0 then x.Floor else -((-x).Floor)
  }

  /**
   * `new Date(year, monthIndex, day)` on finite numbers: each argument is truncated,
   * a year 0..99 means 1900..1999, and the month and day carry as `MakeDate` says.
   */
  function LocalDate(year: real, monthIndex: real, day: real): (r: CalendarDate)
    ensures ValidDate(r)
  {
    var y := Truncate(year);
    MakeDate(if 0 <= y <= 99 then 1900 + y else y, Truncate(monthIndex), Truncate(day))
  }

  /**
   * The fallback reading of three numbers `a`, `b`, `c`: a year below 100 is in
   * the 2000s, and `a` is the day (with `b` the month) only when it exceeds 12.
   */
  function FallbackDate(a: real, b: real, c: real): CalendarDate {
    var year := if c < 100.0 then 2000.0 + c else c;
    var month := if a > 12.0 then b else a;
    var day := if a > 12.0 then a else b;
    LocalDate(year, month - 1.0, day)
  }

  /** `normalizeDate`: "" after trimming is null; then `Date`'s own parse; then the fallback. */
  function NormalizeDate(value: string, lib: DateLib): (r: Option<string>)
    ensures Trim(value) == "" ==> r.None?
  {
    var trimmed := Trim(value);
    if trimmed == "" then None
    else if lib.parse(trimmed).Some? then lib.parse(trimmed)
    else
      var parts := TrimAll(SplitDate(trimmed));
      if |parts| != 3 then None
      else
        match (lib.number(parts[0]), lib.number(parts[1]), lib.number(parts[2]))
        case (Some(a), Some(b), Some(c)) => lib.isoDay(FallbackDate(a, b, c))
        case _ => None
  }

  /**
   * Text that `Date` cannot parse and that is three trimmed numbers joined by `/`
   * or `-` is read through the fallback, on those three numbers in order.
   */
  lemma NormalizeDateFallback(value: string, lib: DateLib, parts: seq<string>, sep: char, a: real, b: real, c: real)
    requires |parts| == 3 && IsDateSeparator(sep)
    requires forall i :: 0 <= i < 3 ==> NoSeparator(parts[i]) && IsTrimmed(parts[i])
    requires Trim(value) == JoinDate(parts, sep) && Trim(value) != ""
    requires lib.parse(Trim(value)).None?
    requires lib.number(parts[0]) == Some(a) && lib.number(parts[1]) == Some(b) && lib.number(parts[2]) == Some(c)
    ensures NormalizeDate(value, lib) == lib.isoDay(FallbackDate(a, b, c))
  {
    SplitJoin(parts, sep);
    assert TrimAll(parts) == parts;
  }

  /** Day first: `13/05/24` is 13 May 2024. */
  lemma FallbackDayFirst(a: int, b: int, c: int)
    requires 12 < a && 1 <= b <= 12 && 0 <= c < 100
    requires a <= DaysInMonth(2000 + c, b)
    ensures FallbackDate(a as real, b as real, c as real) == CalendarDate(2000 + c, b, a)
  {
    var ar, br, cr := a as real, b as real, c as real;
    assert ar > 12.0 && cr < 100.0;
    assert FallbackDate(ar, br, cr) == LocalDate(2000.0 + cr, br - 1.0, ar);
    assert 2000.0 + cr == (2000 + c) as real && br - 1.0 == (b - 1) as real;
    LocalDateOfInts(2000 + c, b - 1, a);
  }

  /** Month first otherwise: `05/13/2024` is 13 May 2024, and `5/6/24` is 6 May 2024. */
  lemma FallbackMonthFirst(a: int, b: int, c: int)
    requires 1 <= a <= 12 && 0 <= c
    requires 1 <= b <= DaysInMonth(if c < 100 then 2000 + c else c, a)
    ensures FallbackDate(a as real, b as real, c as real) == CalendarDate(if c < 100 then 2000 + c else c, a, b)
  {
    var y := if c < 100 then 2000 + c else c;
    assert (if c as real < 100.0 then 2000.0 + c as real else c as real) == y as real;
    assert a as real - 1.0 == (a - 1) as real;
    LocalDateOfInts(y, a - 1, b);
  }

  /** Whole arguments past year 99 that name a real day are that day, with no carrying. */
  lemma LocalDateOfInts(y: int, monthIndex: int, d: int)
    requires 100 <= y && 0 <= monthIndex < 12 && 1 <= d <= DaysInMonth(y, monthIndex + 1)
    ensures LocalDate(y as real, monthIndex as real, d as real) == CalendarDate(y, monthIndex + 1, d)
  {
    assert Truncate(y as real) == y;
    assert Truncate(monthIndex as real) == monthIndex;
    assert Truncate(d as real) == d;
    assert monthIndex / 12 == 0 && monthIndex % 12 == monthIndex;
  }

  /** `normalizeAmount`: the cleaned text through `parseFloat`, made non-negative; null for NaN. */
  function NormalizeAmount(value: string): (r: Option<real>)
    ensures r.Some? ==> r.value >= 0.0
  {
    ParseAmountText(value)
  }

  // ---------------------------------------------------------------------------
  // Rules loaded for the preview

  /**
   * The import form's rule loader: every stored `match_text` (null read as "") is
   * normalised as a merchant key, regular expressions included; the rest is kept.
   */
  function LoadRules(stored: seq<StoredRule>): (r: seq<MerchantRule>)
    ensures |r| == |stored|
    ensures forall i :: 0 <= i < |r| ==> r[i] == LoadRule(stored[i])
  {
    seq(|stored|, i requires 0 <= i < |stored| => LoadRule(stored[i]))
  }

  /**
   * One loaded rule: its text becomes a merchant key (so a text that already is
   * one is kept), and its category and kind are kept.
   */
  function LoadRule(stored: StoredRule): (r: MerchantRule)
    ensures IsNormalizedKey(r.matchText)
    ensures r.category == stored.category && r.isRegex == stored.isRegex
    ensures stored.matchText.Some? && IsNormalizedKey(stored.matchText.value) ==> r.matchText == stored.matchText.value
  {
    LoadedKey(stored.matchText);
    MerchantRule(LoadedText(stored.matchText), stored.category, stored.isRegex)
  }

  /** `normalizeMerchantKey(rule.match_text || '')`. */
  function LoadedText(matchText: Option<string>): string {
    NormalizeMerchantKey(if matchText.Some? then matchText.value else "")
  }

  /** A loaded text is a merchant key, and a text that already is one is kept. */
  lemma LoadedKey(matchText: Option<string>)
    ensures IsNormalizedKey(LoadedText(matchText))
    ensures matchText.Some? && IsNormalizedKey(matchText.value) ==> LoadedText(matchText) == matchText.value
  {
    if matchText.Some? && IsNormalizedKey(matchText.value) {
      NormalizeFixesKeys(matchText.value);
    }
  }

  // ---------------------------------------------------------------------------
  // previewRows

  /** A row of the preview: its index among the parsed rows, and what the draft will hold. */
  datatype PreviewRow = PreviewRow(
    index: nat, date: string, amount: real, merchant: string, category: string, categorySource: CategorySource)

  /** What the preview depends on besides the rows: the loaded rules, the overrides picked per row, `Date`. */
  datatype PreviewSettings = PreviewSettings(
    rules: seq<MerchantRule>, engine: RegexEngine, overrides: map<nat, string>, dates: DateLib)

  const ImportedTransaction := "Imported transaction"

  /** A string JavaScript treats as true: present and not empty. */
  predicate Truthy(o: Option<string>) { o.Some? && o.value != "" }

  function OrEmpty(o: Option<string>): string {
    match o case None => "" case Some(v) => v
  }

  /** `row.mapped.merchant || 'Imported transaction'`. */
  function PreviewMerchant(row: MappedRow): (r: string)
    ensures r != ""
  {
    if row.merchant != "" then row.merchant else ImportedTransaction
  }

  /** `categoryOverrides[index]`. */
  function Override(index: nat, s: PreviewSettings): Option<string> {
    if index in s.overrides then Some(s.overrides[index]) else None
  }

  /** `applyMerchantRules(merchant, merchantRules)`. */
  function RuleCategoryOf(row: MappedRow, s: PreviewSettings): Option<string> {
    ApplyMerchantRules(PreviewMerchant(row), s.rules, s.engine)
  }

  /** The preview of parsed row `index`, before filtering. */
  function PreviewOf(row: MappedRow, index: nat, s: PreviewSettings): (r: PreviewRow)
    ensures r.index == index && r.amount >= 0.0 && r.merchant != ""
  {
    var merchant := PreviewMerchant(row);
    var ruleCategory := RuleCategoryOf(row, s);
    var autoCategory := if Truthy(ruleCategory) then ruleCategory.value else CategorizeMerchant(merchant);
    var override := Override(index, s);
    var category := if Truthy(override) then override.value
                    else if row.category != "" then row.category
                    else autoCategory;
    var source := if Truthy(override) then UserSource
                  else if Truthy(ruleCategory) then RuleSource
                  else UserSource;
    var amount := NormalizeAmount(row.amount);
    PreviewRow(index, OrEmpty(NormalizeDate(row.date, s.dates)),
               if amount.Some? then amount.value else 0.0, merchant, category, source)
  }

  /** `.filter((row) => row.date && row.amount)`. */
  predicate Kept(p: PreviewRow) { p.date != "" && p.amount != 0.0 }

  /** The preview of every parsed row, each carrying its own index. */
  function AllPreviews(rows: seq<MappedRow>, s: PreviewSettings): (r: seq<PreviewRow>)
    ensures |r| == |rows|
    ensures forall i :: 0 <= i < |r| ==> r[i] == PreviewOf(rows[i], i, s)
  {
    seq(|rows|, i requires 0 <= i < |rows| => PreviewOf(rows[i], i, s))
  }

  /** The kept previews among `all[k..]`, in order. */
  function KeptFrom(all: seq<PreviewRow>, k: nat): (r: seq<PreviewRow>)
    requires k <= |all|
    requires forall i :: 0 <= i < |all| ==> all[i].index == i
    ensures forall j :: 0 <= j < |r| ==> k <= r[j].index < |all| && r[j] == all[r[j].index] && Kept(r[j])
    ensures forall j1, j2 :: 0 <= j1 < j2 < |r| ==> r[j1].index < r[j2].index
    ensures forall i :: k <= i < |all| && Kept(all[i]) ==> exists j :: 0 <= j < |r| && r[j].index == i
    decreases |all| - k
  {
    if k == |all| then []
    else
      var rest := KeptFrom(all, k + 1);
      if Kept(all[k]) then
        KeptShift(all, k, rest);
        [all[k]] + rest
      else rest
  }

  /** Putting kept preview `k` in front of the kept previews after it keeps the three facts. */
  lemma KeptShift(all: seq<PreviewRow>, k: nat, rest: seq<PreviewRow>)
    requires k < |all| && all[k].index == k && Kept(all[k])
    requires forall j :: 0 <= j < |rest| ==> k + 1 <= rest[j].index < |all| && rest[j] == all[rest[j].index] && Kept(rest[j])
    requires forall j1, j2 :: 0 <= j1 < j2 < |rest| ==> rest[j1].index < rest[j2].index
    requires forall i :: k + 1 <= i < |all| && Kept(all[i]) ==> exists j :: 0 <= j < |rest| && rest[j].index == i
    ensures var r := [all[k]] + rest;
      && (forall j :: 0 <= j < |r| ==> k <= r[j].index < |all| && r[j] == all[r[j].index] && Kept(r[j]))
      && (forall j1, j2 :: 0 <= j1 < j2 < |r| ==> r[j1].index < r[j2].index)
      && (forall i :: k <= i < |all| && Kept(all[i]) ==> exists j :: 0 <= j < |r| && r[j].index == i)
  {
    var r := [all[k]] + rest;
    forall j | 0 <= j < |r| ensures k <= r[j].index < |all| && r[j] == all[r[j].index] && Kept(r[j]) {
      if j > 0 { assert r[j] == rest[j - 1]; }
    }
    forall j1, j2 | 0 <= j1 < j2 < |r| ensures r[j1].index < r[j2].index {
      assert r[j2] == rest[j2 - 1];
      if j1 > 0 { assert r[j1] == rest[j1 - 1]; }
    }
    forall i | k <= i < |all| && Kept(all[i]) ensures exists j :: 0 <= j < |r| && r[j].index == i {
      if i == k {
        assert r[0].index == i;
      } else {
        var j :| 0 <= j < |rest| && rest[j].index == i;
        assert r[j + 1].index == i;
      }
    }
  }

  /**
   * `previewRows`: the previews of the parsed rows that have a date and a non-zero
   * amount, in order, each keeping the index of its parsed row.
   */
  function PreviewRows(rows: seq<MappedRow>, s: PreviewSettings): (r: seq<PreviewRow>)
    ensures forall j :: 0 <= j < |r| ==> r[j].index < |rows| && r[j] == PreviewOf(rows[r[j].index], r[j].index, s)
    ensures forall j :: 0 <= j < |r| ==> r[j].date != "" && r[j].amount > 0.0 && r[j].merchant != ""
    ensures forall j1, j2 :: 0 <= j1 < j2 < |r| ==> r[j1].index < r[j2].index
    ensures forall i :: 0 <= i < |rows| && Kept(PreviewOf(rows[i], i, s)) ==> exists j :: 0 <= j < |r| && r[j].index == i
  {
    var all := AllPreviews(rows, s);
    KeptFromAll(all);
    KeptFrom(all, 0)
  }

  /** What the filter keeps of previews numbered in order, whose amounts are never negative. */
  lemma KeptFromAll(all: seq<PreviewRow>)
    requires forall i :: 0 <= i < |all| ==> all[i].index == i && all[i].amount >= 0.0 && all[i].merchant != ""
    ensures var r := KeptFrom(all, 0);
      && (forall j :: 0 <= j < |r| ==> r[j].index < |all| && r[j] == all[r[j].index])
      && (forall j :: 0 <= j < |r| ==> r[j].date != "" && r[j].amount > 0.0 && r[j].merchant != "")
      && (forall j1, j2 :: 0 <= j1 < j2 < |r| ==> r[j1].index < r[j2].index)
      && (forall i :: 0 <= i < |all| && Kept(all[i]) ==> exists j :: 0 <= j < |r| && r[j].index == i)
  {
    var r := KeptFrom(all, 0);
    forall j | 0 <= j < |r| ensures r[j].amount > 0.0 && r[j].merchant != "" {
      assert all[r[j].index].amount >= 0.0;
    }
  }

  /**
   * Category precedence: the override picked for the row, then the CSV category
   * cell, then the category of the first matching rule, then `categorizeMerchant`.
   * The source is `user` for an override, otherwise `rule` exactly when a rule
   * supplied a category, even when the CSV cell decided the category.
   */
  lemma PreviewCategory(row: MappedRow, index: nat, s: PreviewSettings)
    ensures Truthy(Override(index, s)) ==>
      PreviewOf(row, index, s).category == s.overrides[index] && PreviewOf(row, index, s).categorySource == UserSource
    ensures !Truthy(Override(index, s)) && row.category != "" ==> PreviewOf(row, index, s).category == row.category
    ensures !Truthy(Override(index, s)) && row.category == "" ==>
      PreviewOf(row, index, s).category ==
        (if Truthy(RuleCategoryOf(row, s)) then RuleCategoryOf(row, s).value else CategorizeMerchant(PreviewMerchant(row)))
    ensures !Truthy(Override(index, s)) ==>
      (PreviewOf(row, index, s).categorySource == RuleSource <==> Truthy(RuleCategoryOf(row, s)))
  {
  }

  /**
   * Without an override or a CSV category, the preview takes the category of the
   * first saved rule that matches, when that category is not empty.
   */
  lemma PreviewUsesFirstRule(row: MappedRow, index: nat, s: PreviewSettings, i: nat)
    requires !Truthy(Override(index, s)) && row.category == ""
    requires FirstMatchAt(s.rules, i, PreviewMerchant(row), NormalizeMerchantKey(PreviewMerchant(row)), s.engine)
    requires s.rules[i].category != ""
    ensures PreviewOf(row, index, s).category == s.rules[i].category
    ensures PreviewOf(row, index, s).categorySource == RuleSource
  {
    ApplyFirstMatch(PreviewMerchant(row), s.rules, s.engine, i);
    assert Truthy(RuleCategoryOf(row, s));
    PreviewCategory(row, index, s);
  }

  // ---------------------------------------------------------------------------
  // rulesToSave

  /** A rule row to upsert into `merchant_rules`. */
  datatype SavedRule = SavedRule(userId: string, matchText: string, category: string, isRegex: bool)

  /** What a remembered preview row contributes: its merchant key and its category. */
  datatype Entry = Entry(key: string, category: string)

  function EntryOf(row: PreviewRow): (e: Entry)
    ensures IsNormalizedKey(e.key) && e.category == row.category
  {
    Entry(NormalizeMerchantKey(row.merchant), row.category)
  }

  /** `rememberRules[row.index]` is set. */
  predicate IsRemembered(row: PreviewRow, remember: map<nat, bool>) {
    row.index in remember && remember[row.index]
  }

  /** The entries of `previewRows.filter((row) => rememberRules[row.index])`, in order. */
  function RememberedEntries(preview: seq<PreviewRow>, remember: map<nat, bool>): (r: seq<Entry>)
    ensures |r| <= |preview|
    ensures forall i :: 0 <= i < |r| ==> IsNormalizedKey(r[i].key)
  {
    if preview == [] then []
    else
      var last := preview[|preview| - 1];
      RememberedEntries(preview[..|preview| - 1], remember)
        + (if IsRemembered(last, remember) then [EntryOf(last)] else [])
  }

  /** The Map after the reduce: one entry per non-empty key, a later entry overwriting. */
  function SavedMap(es: seq<Entry>, userId: string): map<string, SavedRule> {
    if es == [] then map[]
    else
      var m := SavedMap(es[..|es| - 1], userId);
      var e := es[|es| - 1];
      if e.key == "" then m else m[e.key := SavedRule(userId, e.key, e.category, false)]
  }

  /** The Map's keys in insertion order: a key keeps the place where it was first set. */
  function KeyOrder(es: seq<Entry>): seq<string> {
    if es == [] then []
    else
      var ks := KeyOrder(es[..|es| - 1]);
      var key := es[|es| - 1].key;
      if key == "" || key in ks then ks else ks + [key]
  }

  /** One more preview row adds its entry when it is remembered. */
  lemma RememberedStep(preview: seq<PreviewRow>, remember: map<nat, bool>, i: nat)
    requires i < |preview|
    ensures RememberedEntries(preview[..i + 1], remember)
         == RememberedEntries(preview[..i], remember)
            + (if IsRemembered(preview[i], remember) then [EntryOf(preview[i])] else [])
  {
    assert preview[..i + 1][..i] == preview[..i];
  }

  /** One more entry sets its key in the Map and, when the key is new, appends it to the order. */
  lemma SavedStep(es: seq<Entry>, e: Entry, userId: string)
    ensures SavedMap(es + [e], userId)
         == if e.key == "" then SavedMap(es, userId) else SavedMap(es, userId)[e.key := SavedRule(userId, e.key, e.category, false)]
    ensures KeyOrder(es + [e]) == if e.key == "" || e.key in KeyOrder(es) then KeyOrder(es) else KeyOrder(es) + [e.key]
    ensures e.key != "" ==> (e.key in KeyOrder(es) <==> e.key in SavedMap(es, userId))
  {
    assert (es + [e])[..|es|] == es;
    KeyOrderIsMapKeys(es, userId);
  }

  /** The insertion order lists each key of the Map exactly once. */
  lemma {:induction false} KeyOrderIsMapKeys(es: seq<Entry>, userId: string)
    ensures forall k :: k in KeyOrder(es) <==> k in SavedMap(es, userId)
    ensures forall i, j :: 0 <= i < j < |KeyOrder(es)| ==> KeyOrder(es)[i] != KeyOrder(es)[j]
  {
    if es != [] {
      KeyOrderIsMapKeys(es[..|es| - 1], userId);
    }
  }

  /** `Array.from(rulesToSave.values())`. */
  function SavedRules(preview: seq<PreviewRow>, remember: map<nat, bool>, userId: string): seq<SavedRule> {
    var es := RememberedEntries(preview, remember);
    var m := SavedMap(es, userId);
    var ks := KeyOrder(es);
    KeyOrderIsMapKeys(es, userId);
    seq(|ks|, j requires 0 <= j < |ks| => m[ks[j]])
  }

  /** `rulesToSave`: the reduce over the remembered rows, filling a Map keyed by merchant key. */
  method RulesToSave(preview: seq<PreviewRow>, remember: map<nat, bool>, userId: string) returns (rules: seq<SavedRule>)
    ensures rules == SavedRules(preview, remember, userId)
  {
    var saved: map<string, SavedRule> := map[];
    var order: seq<string> := [];
    for i := 0 to |preview|
      invariant saved == SavedMap(RememberedEntries(preview[..i], remember), userId)
      invariant order == KeyOrder(RememberedEntries(preview[..i], remember))
    {
      ghost var before := RememberedEntries(preview[..i], remember);
      RememberedStep(preview, remember, i);
      var row := preview[i];
      if row.index in remember && remember[row.index] {
        var key := NormalizeMerchantKey(row.merchant);
        assert RememberedEntries(preview[..i + 1], remember) == before + [Entry(key, row.category)];
        SavedStep(before, Entry(key, row.category), userId);
        if key != "" {
          if key !in saved {
            order := order + [key];
          }
          saved := saved[key := SavedRule(userId, key, row.category, false)];
        }
      } else {
        assert RememberedEntries(preview[..i + 1], remember) == before + [];
        assert before + [] == before;
      }
    }
    assert preview[..|preview|] == preview;
    KeyOrderIsMapKeys(RememberedEntries(preview, remember), userId);
    rules := seq(|order|, j requires 0 <= j < |order| => saved[order[j]]);
  }

  /**
   * What the Map holds: under each non-empty key, a literal rule with that key as
   * its text and the category of the LAST entry with that key; every entry with a
   * non-empty key is represented.
   */
  lemma SavedMapLastWins(es: seq<Entry>, userId: string)
    ensures forall k :: k in SavedMap(es, userId) ==>
      k != "" && SavedMap(es, userId)[k] == SavedRule(userId, k, SavedMap(es, userId)[k].category, false)
    ensures forall k :: k in SavedMap(es, userId) ==>
      exists i :: LastWithKey(es, i, k) && SavedMap(es, userId)[k].category == es[i].category
    ensures forall i :: 0 <= i < |es| && es[i].key != "" ==> es[i].key in SavedMap(es, userId)
  {
    SavedMapShape(es, userId);
    SavedMapLast(es, userId);
    SavedMapCovers(es, userId);
  }

  /** Every saved rule is keyed by its own non-empty text, for this user, not a regex. */
  lemma {:induction false} SavedMapShape(es: seq<Entry>, userId: string)
    ensures forall k :: k in SavedMap(es, userId) ==>
      k != "" && SavedMap(es, userId)[k] == SavedRule(userId, k, SavedMap(es, userId)[k].category, false)
  {
    if es != [] {
      SavedMapShape(es[..|es| - 1], userId);
    }
  }

  /** The category saved under a key is the one of the last entry with that key. */
  lemma {:induction false} SavedMapLast(es: seq<Entry>, userId: string)
    ensures forall k :: k in SavedMap(es, userId) ==>
      exists i :: LastWithKey(es, i, k) && SavedMap(es, userId)[k].category == es[i].category
  {
    if es != [] {
      var front := es[..|es| - 1];
      SavedMapLast(front, userId);
      var m := SavedMap(es, userId);
      var last := es[|es| - 1];
      forall k | k in m
        ensures exists i :: LastWithKey(es, i, k) && m[k].category == es[i].category
      {
        if last.key != "" && k == last.key {
          assert LastWithKey(es, |es| - 1, k);
        } else {
          assert k in SavedMap(front, userId) && m[k] == SavedMap(front, userId)[k];
          SavedMapShape(front, userId);
          assert k != "" && last.key != k;
          var i :| LastWithKey(front, i, k) && SavedMap(front, userId)[k].category == front[i].category;
          assert es[i] == front[i];
          assert forall j :: i < j < |front| ==> es[j] == front[j];
          assert LastWithKey(es, i, k);
        }
      }
    }
  }

  /** Every entry with a non-empty key has its key in the map. */
  lemma {:induction false} SavedMapCovers(es: seq<Entry>, userId: string)
    ensures forall i :: 0 <= i < |es| && es[i].key != "" ==> es[i].key in SavedMap(es, userId)
  {
    if es != [] {
      var front := es[..|es| - 1];
      SavedMapCovers(front, userId);
      forall i | 0 <= i < |es| && es[i].key != "" ensures es[i].key in SavedMap(es, userId) {
        if i < |front| { assert es[i] == front[i]; }
      }
    }
  }

  predicate LastWithKey(es: seq<Entry>, i: int, k: string) {
    0 <= i < |es| && es[i].key == k && forall j :: i < j < |es| ==> es[j].key != k
  }

  /** `SavedRules` lists the Map's entries in key insertion order. */
  lemma SavedRulesAreMapEntries(preview: seq<PreviewRow>, remember: map<nat, bool>, userId: string)
    ensures |SavedRules(preview, remember, userId)| == |KeyOrder(RememberedEntries(preview, remember))|
    ensures forall i :: 0 <= i < |SavedRules(preview, remember, userId)| ==>
      KeyOrder(RememberedEntries(preview, remember))[i] in SavedMap(RememberedEntries(preview, remember), userId)
      && SavedRules(preview, remember, userId)[i]
         == SavedMap(RememberedEntries(preview, remember), userId)[KeyOrder(RememberedEntries(preview, remember))[i]]
  {
    KeyOrderIsMapKeys(RememberedEntries(preview, remember), userId);
  }

  /** The saved rules carry pairwise different merchant keys. */
  lemma SavedRulesDistinct(preview: seq<PreviewRow>, remember: map<nat, bool>, userId: string)
    ensures forall i, j :: 0 <= i < j < |SavedRules(preview, remember, userId)| ==>
      SavedRules(preview, remember, userId)[i].matchText != SavedRules(preview, remember, userId)[j].matchText
  {
    var es := RememberedEntries(preview, remember);
    SavedRulesAreMapEntries(preview, remember, userId);
    KeyOrderIsMapKeys(es, userId);
    SavedMapLastWins(es, userId);
    var r := SavedRules(preview, remember, userId);
    var ks := KeyOrder(es);
    forall i | 0 <= i < |r| ensures r[i].matchText == ks[i] {}
  }

  /**
   * Each saved rule is a literal rule of the user whose text is a non-empty
   * normalised key and whose category is that of the last remembered row with
   * that key.
   */
  lemma SavedRulesLastWins(preview: seq<PreviewRow>, remember: map<nat, bool>, userId: string, i: nat)
    requires i < |SavedRules(preview, remember, userId)|
    ensures SavedRules(preview, remember, userId)[i].userId == userId
    ensures !SavedRules(preview, remember, userId)[i].isRegex
    ensures SavedRules(preview, remember, userId)[i].matchText != ""
    ensures IsNormalizedKey(SavedRules(preview, remember, userId)[i].matchText)
    ensures exists n ::
      LastWithKey(RememberedEntries(preview, remember), n, SavedRules(preview, remember, userId)[i].matchText)
      && SavedRules(preview, remember, userId)[i].category == RememberedEntries(preview, remember)[n].category
  {
    var es := RememberedEntries(preview, remember);
    var m := SavedMap(es, userId);
    var ks := KeyOrder(es);
    SavedRulesAreMapEntries(preview, remember, userId);
    SavedMapLastWins(es, userId);
    var rule := SavedRules(preview, remember, userId)[i];
    assert rule == m[ks[i]];
    var n :| LastWithKey(es, n, ks[i]) && m[ks[i]].category == es[n].category;
    assert IsNormalizedKey(es[n].key);
  }

  /** Every remembered row with a non-empty merchant key has a saved rule. */
  lemma SavedRulesComplete(preview: seq<PreviewRow>, remember: map<nat, bool>, userId: string, n: nat)
    requires n < |RememberedEntries(preview, remember)| && RememberedEntries(preview, remember)[n].key != ""
    ensures exists i ::
      0 <= i < |SavedRules(preview, remember, userId)|
      && SavedRules(preview, remember, userId)[i].matchText == RememberedEntries(preview, remember)[n].key
  {
    var es := RememberedEntries(preview, remember);
    var ks := KeyOrder(es);
    SavedRulesAreMapEntries(preview, remember, userId);
    KeyOrderIsMapKeys(es, userId);
    SavedMapLastWins(es, userId);
    var i :| 0 <= i < |ks| && ks[i] == es[n].key;
    assert SavedRules(preview, remember, userId)[i].matchText == ks[i];
  }

  // ---------------------------------------------------------------------------
  // handleImport: the drafts and the rules to save

  /** The draft written for a preview row: the importing user pays and owes the whole amount. */
  function ImportDraft(row: PreviewRow, groupId: string, userId: string, budgetImpact: bool, read: DateReader): ExpenseDraft {
    ExpenseDraft(groupId, userId, row.amount, if row.merchant != "" then Some(row.merchant) else None,
                 row.date, PeriodKeyOf(row.date, read), budgetImpact, Some(row.category), row.categorySource,
                 SoleParticipant(userId, row.amount), ImportEntry, None)
  }

  function ImportDrafts(preview: seq<PreviewRow>, groupId: string, userId: string, budgetImpact: bool, read: DateReader): (r: seq<ExpenseDraft>)
    ensures |r| == |preview|
    ensures forall i :: 0 <= i < |r| ==> r[i] == ImportDraft(preview[i], groupId, userId, budgetImpact, read)
  {
    seq(|preview|, i requires 0 <= i < |preview| => ImportDraft(preview[i], groupId, userId, budgetImpact, read))
  }

  /**
   * Every imported draft is balanced: one participant, the importing user, whose
   * paid and owed totals both equal the draft's amount, which is the preview row's
   * amount; the draft is filed under the period key of the row's date and keeps the
   * row's category and its source.
   */
  lemma ImportDraftsBalanced(preview: seq<PreviewRow>, groupId: string, userId: string, budgetImpact: bool, read: DateReader, i: nat)
    requires i < |preview|
    ensures var d := ImportDrafts(preview, groupId, userId, budgetImpact, read)[i];
      d.amount == preview[i].amount
      && |d.participants| == 1 && d.participants[0].userId == userId
      && PaidTotal(d.participants) == d.amount && OwedTotal(d.participants) == d.amount
      && d.periodKey == PeriodKeyOf(preview[i].date, read)
      && d.category == Some(preview[i].category) && d.categorySource == preview[i].categorySource
      && d.source == ImportEntry && d.groupId == groupId && d.createdBy == userId
  {
    SoleParticipantBalanced(userId, preview[i].amount);
  }

  /** What a successful import writes. */
  datatype ImportPlan = ImportPlan(drafts: seq<ExpenseDraft>, rules: seq<SavedRule>)

  const SignInAgain := "Please sign in again."
  const MapDateAndAmount := "Please map the date and amount columns."
  const NoValidRows := "No valid rows found. Check your column mapping."

  /**
   * `handleImport` up to the database writes: no user, then an unmapped date or
   * amount column, then an empty preview stop the import with their messages, in
   * that order; otherwise one draft per preview row and the rules to remember.
   */
  method HandleImport(user: Option<string>, mapping: Mapping, preview: seq<PreviewRow>, remember: map<nat, bool>,
                      groupId: string, budgetImpact: bool, read: DateReader) returns (r: Result<ImportPlan>)
    ensures user.None? ==> r == Err(SignInAgain)
    ensures user.Some? && (mapping.date == "" || mapping.amount == "") ==> r == Err(MapDateAndAmount)
    ensures user.Some? && mapping.date != "" && mapping.amount != "" && preview == [] ==> r == Err(NoValidRows)
    ensures r.Ok? <==> user.Some? && mapping.date != "" && mapping.amount != "" && preview != []
    ensures r.Ok? ==> r.value == ImportPlan(ImportDrafts(preview, groupId, user.value, budgetImpact, read),
                                             SavedRules(preview, remember, user.value))
  {
    if user.None? {
      return Err(SignInAgain);
    }
    if mapping.date == "" || mapping.amount == "" {
      return Err(MapDateAndAmount);
    }
    var drafts := ImportDrafts(preview, groupId, user.value, budgetImpact, read);
    if |drafts| == 0 {
      return Err(NoValidRows);
    }
    var rules := RulesToSave(preview, remember, user.value);
    r := Ok(ImportPlan(drafts, rules));
  }

  // ---------------------------------------------------------------------------
  // Preview pagination

  const PageSize: nat := 10

  /** `Math.ceil(previewRows.length / pageSize)`. */
  function PageCount(n: nat): (r: nat)
    ensures r * PageSize >= n
    ensures n > 0 ==> (r - 1) * PageSize < n
    ensures r == 0 <==> n == 0
  {
    (n + PageSize - 1) / PageSize
  }

  /** The Previous button: `Math.max(prev - 1, 1)`. */
  function PreviousPage(page: int): int {
    if page - 1 > 1 then page - 1 else 1
  }

  /** The Next button: `Math.min(prev + 1, pageCount)`. */
  function NextPage(page: int, n: nat): int {
    if page + 1 < PageCount(n) then page + 1 else PageCount(n)
  }

  /** JavaScript's `Array.prototype.slice`: negative bounds count from the end, and bounds are clipped. */
  function Slice<T>(s: seq<T>, start: int, end: int): (r: seq<T>)
    ensures |r| <= |s|
  {
    var from := if start < 0 then (if |s| + start < 0 then 0 else |s| + start) else (if start > |s| then |s| else start);
    var to := if end < 0 then (if |s| + end < 0 then 0 else |s| + end) else (if end > |s| then |s| else end);
    if from < to then s[from..to] else []
  }

  /** The rows shown on page `page`: `slice((page - 1) * pageSize, page * pageSize)`. */
  function PageRows<T>(rows: seq<T>, page: int): seq<T> {
    Slice(rows, (page - 1) * PageSize, page * PageSize)
  }

  /**
   * With the controls shown (more than one page), a page number from 1 to the page
   * count stays in that range under Previous and Next, and each button stops at its end.
   */
  lemma PagerStaysInRange(page: int, n: nat)
    requires n > PageSize && 1 <= page <= PageCount(n)
    ensures 1 <= PreviousPage(page) <= PageCount(n) && 1 <= NextPage(page, n) <= PageCount(n)
    ensures PreviousPage(1) == 1 && NextPage(PageCount(n), n) == PageCount(n)
    ensures page > 1 ==> PreviousPage(page) == page - 1
    ensures page < PageCount(n) ==> NextPage(page, n) == page + 1
  {
  }

  /** The last page the pager can show: the page count, or page 1 when there is nothing to show. */
  function LastPage(n: nat): (r: nat)
    ensures r >= 1 && r >= PageCount(n)
    ensures n > 0 ==> r == PageCount(n)
  {
    if n == 0 then 1 else PageCount(n)
  }

  /**
   * The page kept when the preview is recomputed, as the form has it: the effect
   * that sets page 1 runs only when the number of raw rows or of headers changed,
   * not when a new column mapping or category override changes the preview.
   */
  function PageAfterPreviewChange(page: int, rowsResized: bool, headersResized: bool): (r: int)
    ensures rowsResized || headersResized ==> r == 1
    ensures !rowsResized && !headersResized ==> r == page
  {
    if rowsResized || headersResized then 1 else page
  }

  /**
   * On page 3 of 25 drafts, choosing a date column that leaves 5 drafts keeps page
   * 3: it is past the last page, it shows no row although drafts exist, and with a
   * single page the pager that could go back is not shown.
   */
  lemma RemapStrandsPage<T>(before: seq<T>, after: seq<T>)
    requires |before| == 25 && |after| == 5
    ensures 1 <= 3 <= PageCount(|before|)
    ensures var page := PageAfterPreviewChange(3, false, false);
            page > LastPage(|after|) && PageRows(after, page) == [] && after != [] && |after| <= PageSize
  {
    assert PageCount(25) == 3 && PageCount(5) == 1;
  }

  /**
   * The page as the effect evidently means it: back to page 1 whenever the number
   * of preview rows changes.
   */
  function PageForPreview(page: int, oldCount: nat, newCount: nat): (r: int)
    ensures oldCount != newCount ==> r == 1
    ensures oldCount == newCount ==> r == page
  {
    if oldCount != newCount then 1 else page
  }

  /**
   * With the reset tied to the preview, a page in range stays in range, and while
   * there are drafts the page shown holds at least one of them.
   */
  lemma PreviewPageStaysInRange<T>(page: int, before: seq<T>, after: seq<T>)
    requires 1 <= page <= LastPage(|before|)
    ensures 1 <= PageForPreview(page, |before|, |after|) <= LastPage(|after|)
    ensures after != [] ==> PageRows(after, PageForPreview(page, |before|, |after|)) != []
  {
    var p := PageForPreview(page, |before|, |after|);
    if after != [] {
      assert (p - 1) * PageSize <= (PageCount(|after|) - 1) * PageSize < |after|;
      PageIsWindow(after, p);
      assert PageRows(after, p)[0] == after[(p - 1) * PageSize];
    }
  }

  /** A page from 1 on holds the rows from `(page - 1) * 10` up to ten of them. */
  lemma PageIsWindow<T>(rows: seq<T>, page: int)
    requires page >= 1
    ensures (page - 1) * PageSize <= |rows| ==>
      PageRows(rows, page) == rows[(page - 1) * PageSize..if page * PageSize < |rows| then page * PageSize else |rows|]
    ensures (page - 1) * PageSize > |rows| ==> PageRows(rows, page) == []
    ensures |PageRows(rows, page)| <= PageSize
  {
  }

  /** Pages 1..k, one after the other. */
  function PagesUpTo<T>(rows: seq<T>, k: nat): seq<T> {
    if k == 0 then [] else PagesUpTo(rows, k - 1) + PageRows(rows, k)
  }

  /** The pages in order show every preview row exactly once. */
  lemma {:induction false} PagesCoverRows<T>(rows: seq<T>, k: nat)
    ensures PagesUpTo(rows, k) == rows[..if k * PageSize < |rows| then k * PageSize else |rows|]
  {
    if k > 0 {
      PagesCoverRows(rows, k - 1);
      PageIsWindow(rows, k);
      var a := if (k - 1) * PageSize < |rows| then (k - 1) * PageSize else |rows|;
      var b := if k * PageSize < |rows| then k * PageSize else |rows|;
      if (k - 1) * PageSize <= |rows| {
        assert rows[..a] + rows[a..b] == rows[..b];
      } else {
        assert a == b;
      }
    }
  }

  /** All pages together are exactly the preview rows. */
  lemma AllPagesAreRows<T>(rows: seq<T>)
    ensures PagesUpTo(rows, PageCount(|rows|)) == rows
  {
    PagesCoverRows(rows, PageCount(|rows|));
    assert rows[..|rows|] == rows;
  }
}
