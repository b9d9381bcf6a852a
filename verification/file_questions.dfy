/**
 * file_questions.c: challenge questions drawn from a CSV file.
 *
 * The header row names the `match`, `question` and `answer` columns (case
 * does not matter, the last duplicate wins). Every later row with a
 * question and an answer, whose match text fits the configured pattern, is
 * eligible; one of them is chosen by reservoir sampling of size one, with
 * unbiased draws from the operating system's entropy source.
 *
 * The file is the sequence of its lines, each as `csv_start` leaves it
 * (see Csv.CsvStart); the entropy source is the sequence of its reads;
 * the regular expression engine is the function `regex`, which says
 * whether a text fits a compiled pattern (see Matcher).
 */
module FileQuestions {
  import opened Opt
  import opened Helpers
  import opened Division
  import opened Csv

  // ---------------------------------------------------------------------
  // build_config: the pattern and the file name (file_questions.c:37-107)
  // ---------------------------------------------------------------------

  const MATCHER_MAX: nat := 1024

  /** The options as parsed from the module arguments. */
  datatype FileOptions = FileOptions(
    questions: int32, attempts: int32, filename: string, matcher: string, ignoreCase: int32)

  /** The values `build_config` starts from. */
  const DefaultFileOptions := FileOptions(3, 3, "/usr/lib/pam_math/questions.csv", ".*", 0)

  datatype FileConfig = FileConfig(
    questions: int32, attempts: int32, filename: string, pattern: string, ignoreCase: int32)

  /** The pattern wrapped so that it must match a whole text. */
  function Anchored(matcher: string): (p: string)
    ensures |p| == |matcher| + 4
    ensures p[..2] == "^(" && p[2..|p| - 2] == matcher && p[|p| - 2..] == ")$"
  {
    "^(" + matcher + ")$"
  }

  /**
   * `build_config` after parsing: None when the anchored pattern does not
   * compile; no questions are asked when the file name is empty.
   */
  function BuildConfig(o: FileOptions, compiles: string -> bool): (r: Option<FileConfig>)
    ensures r.None? <==> !compiles(Anchored(o.matcher))
    ensures r.Some? ==> r.value.pattern == Anchored(o.matcher) && r.value.filename == o.filename
    ensures r.Some? ==> r.value.questions == (if o.filename == "" then 0 else o.questions)
    ensures r.Some? ==> r.value.attempts == o.attempts && r.value.ignoreCase == o.ignoreCase
  {
    var pattern := Anchored(o.matcher);
    if !compiles(pattern) then None
    else Some(FileConfig(
      if o.filename == "" then 0 else o.questions, o.attempts, o.filename, pattern, o.ignoreCase))
  }

  /**
   * Without options the module reads the installed question file, accepts
   * every row (the default pattern `.*`, anchored), and compares answers
   * exactly.
   */
  lemma DefaultFileConfig(compiles: string -> bool)
    requires compiles("^(.*)$")
    ensures BuildConfig(DefaultFileOptions, compiles) ==
      Some(FileConfig(3, 3, "/usr/lib/pam_math/questions.csv", "^(.*)$", 0))
  {
    assert Anchored(".*") == "^(.*)$";
  }

  /** A pattern read with `%1023s` fits, anchored and terminated, in the `MATCHER_MAX + 4` buffer. */
  lemma AnchoredFits(matcher: string)
    requires |matcher| <= MATCHER_MAX - 1
    ensures |Anchored(matcher)| + 1 <= MATCHER_MAX + 4
  {
  }

  // ---------------------------------------------------------------------
  // randint: rejection sampling from the entropy source (file_questions.c:122-137)
  // ---------------------------------------------------------------------

  /** One `fread` of a word: it fails, or yields a full word. */
  datatype Read = Short | Full(word: uint32)

  /** `rmax`: the largest multiple of `d` not above UINT_MAX. */
  function Threshold(d: nat): (t: nat)
    requires d > 0
    ensures t <= UINT_MAX && UINT_MAX - t < d
  {
    (UINT_MAX / d) * d
  }

  /**
   * `randint(devrandom, min, max)`, a short read being drawn again: the
   * first full word below the threshold, reduced into `[min, max)`; None
   * when the reads run out.
   */
  function Draw(words: seq<Read>, i: nat, min: int, max: int): (r: Option<(int, nat)>)
    requires min < max && i <= |words|
    ensures r.Some? ==> min <= r.value.0 < max && i < r.value.1 <= |words|
    ensures r.Some? ==>
      var w := words[r.value.1 - 1];
      w.Full? && w.word as int < Threshold(max - min) && r.value.0 - min == w.word as int % (max - min)
    decreases |words| - i
  {
    if i == |words| then None
    else
      match words[i]
      case Short => Draw(words, i + 1, min, max)
      case Full(w) =>
        if (w as int) < Threshold(max - min) then Some((min + w as int % (max - min), i + 1))
        else Draw(words, i + 1, min, max)
  }

  method RandInt(words: seq<Read>, start: nat, min: int, max: int) returns (r: Option<(int, nat)>)
    requires min < max && start <= |words|
    ensures r == Draw(words, start, min, max)
  {
    var d := max - min;
    var rmax := (UINT_MAX / d) * d;
    var i := start;
    while true
      invariant start <= i <= |words|
      invariant Draw(words, i, min, max) == Draw(words, start, min, max)
      decreases |words| - i
    {
      if i == |words| {
        return None;
      }
      var read := words[i];
      i := i + 1;
      if read.Full? && (read.word as int) < rmax {
        return Some((min + read.word as int % d, i));
      }
    }
  }

  /**
   * `randint` as written: after a short read the test runs anyway, on a
   * variable the read did not fill; `stale` is what that variable holds.
   */
  function DrawAsWritten(words: seq<Read>, i: nat, min: int, max: int, stale: uint32): Option<(int, nat)>
    requires min < max && i <= |words|
    decreases |words| - i
  {
    if i == |words| then None
    else
      var w := match words[i] case Short => stale case Full(x) => x;
      if (w as int) < Threshold(max - min) then Some((min + w as int % (max - min), i + 1))
      else DrawAsWritten(words, i + 1, min, max, stale)
  }

  /** A single failed read still yields a value as written, although no word was read. */
  lemma ShortReadAcceptedAsWritten()
    ensures DrawAsWritten([Short], 0, 0, 2, 0) == Some((0, 1))
    ensures Draw([Short], 0, 0, 2) == None
  {
  }

  /** Without short reads the two versions agree. */
  lemma {:induction false} DrawAsWrittenWithoutShortReads(words: seq<Read>, i: nat, min: int, max: int, stale: uint32)
    requires min < max && i <= |words|
    requires forall k :: i <= k < |words| ==> words[k].Full?
    ensures DrawAsWritten(words, i, min, max, stale) == Draw(words, i, min, max)
    decreases |words| - i
  {
    if i < |words| {
      DrawAsWrittenWithoutShortReads(words, i + 1, min, max, stale);
    }
  }

  /** How many words below `n` leave the remainder `v` modulo `d`. */
  function CountResidue(n: nat, d: nat, v: nat): nat
    requires d > 0
  {
    if n == 0 then 0 else CountResidue(n - 1, d, v) + (if (n - 1) % d == v then 1 else 0)
  }

  lemma BlockMod(k: nat, d: nat, j: nat)
    requires j < d
    ensures (k * d + j) % d == j
  {
    FloorUnique(k * d + j, d, k, j);
  }

  /** In `[0, k * d + j)`, with `j <= d`, `v` is hit once per full block and once more if `v < j`. */
  lemma {:induction false} PartialBlockCount(k: nat, d: nat, v: nat, j: nat)
    requires v < d && j <= d
    ensures CountResidue(k * d + j, d, v) == k + (if v < j then 1 else 0)
  {
    if j == 0 {
      if k > 0 {
        PartialBlockCount(k - 1, d, v, d);
        assert (k - 1) * d + d == k * d;
      }
    } else {
      PartialBlockCount(k, d, v, j - 1);
      BlockMod(k, d, j - 1);
    }
  }

  /**
   * Every result of `randint` has the same number of accepting words,
   * `rmax / d`: the rejection makes the draw unbiased.
   */
  lemma Unbiased(d: nat, v: nat)
    requires 0 < d && v < d
    ensures Threshold(d) % d == 0
    ensures CountResidue(Threshold(d), d, v) == Threshold(d) / d == UINT_MAX / d
  {
    var k := UINT_MAX / d;
    PartialBlockCount(k, d, v, 0);
    ExactDivision(k, d);
  }

  // ---------------------------------------------------------------------
  // The header row (file_questions.c:153-177)
  // ---------------------------------------------------------------------

  /** `tolower` in the C locale. */
  function Lower(c: char): char {
    if 'A' <= c <= 'Z' then (c as int + 32) as char else c
  }

  function LowerString(s: string): (t: string)
    ensures |t| == |s|
  {
    seq(|s|, i requires 0 <= i < |s| => Lower(s[i]))
  }

  /** `strcasecmp(a, b) == 0`. */
  predicate SameIgnoringCase(a: string, b: string) {
    LowerString(a) == LowerString(b)
  }

  /** The column indexes found, -1 for a name not seen. */
  datatype Columns = Columns(matchCol: int, questionCol: int, answerCol: int)

  /** Columns that name a field at all are distinct. */
  predicate Distinct(c: Columns) {
    (c.matchCol == -1 || (c.matchCol != c.questionCol && c.matchCol != c.answerCol)) &&
    (c.questionCol == -1 || c.questionCol != c.answerCol)
  }

  /** The header loop after reading `names`: each name sets the column it equals, ignoring case. */
  function HeaderColumns(names: seq<string>): (c: Columns)
    ensures Distinct(c)
    ensures -1 <= c.matchCol < |names| && -1 <= c.questionCol < |names| && -1 <= c.answerCol < |names|
  {
    if names == [] then Columns(-1, -1, -1)
    else
      var c := HeaderColumns(names[..|names| - 1]);
      var k := |names| - 1;
      if SameIgnoringCase(names[k], "match") then c.(matchCol := k)
      else if SameIgnoringCase(names[k], "question") then c.(questionCol := k)
      else if SameIgnoringCase(names[k], "answer") then c.(answerCol := k)
      else c
  }

  /** The last index whose name equals `key` ignoring case, or -1 when none does. */
  function LastIndexOf(names: seq<string>, key: string): (k: int)
    ensures -1 <= k < |names|
    ensures k == -1 <==> forall j :: 0 <= j < |names| ==> !SameIgnoringCase(names[j], key)
    ensures k >= 0 ==> SameIgnoringCase(names[k], key)
    ensures k >= 0 ==> forall j :: k < j < |names| ==> !SameIgnoringCase(names[j], key)
  {
    if names == [] then -1
    else if SameIgnoringCase(names[|names| - 1], key) then |names| - 1
    else LastIndexOf(names[..|names| - 1], key)
  }

  /** Each column is the last one named so, whatever the case of its letters. */
  lemma {:induction false} HeaderColumnsLastWins(names: seq<string>)
    ensures HeaderColumns(names) ==
      Columns(LastIndexOf(names, "match"), LastIndexOf(names, "question"), LastIndexOf(names, "answer"))
  {
    if names != [] {
      HeaderColumnsLastWins(names[..|names| - 1]);
      var n := names[|names| - 1];
      assert SameIgnoringCase(n, "match") ==> |n| == 5;
      assert SameIgnoringCase(n, "question") ==> |n| == 8;
      assert SameIgnoringCase(n, "answer") ==> |n| == 6;
    }
  }

  /** The header loop, one `csv_read` call per column name. */
  method FindColumns(header: string) returns (cols: Columns)
    ensures cols == HeaderColumns(Fields(header))
  {
    var cursor := At(0);
    ghost var seen: seq<string> := [];
    cols := Columns(-1, -1, -1);
    var col := 0;
    while true
      invariant ValidCursor(header, cursor) && col == |seen|
      invariant Fields(header) == seen + FieldsFrom(header, cursor)
      invariant cols == HeaderColumns(seen)
      decreases Remaining(header, cursor)
    {
      var name, next := CsvRead(header, cursor);
      if name.None? {
        FieldsEnd(header, seen, cursor);
        return;
      }
      FieldsStep(header, seen, cursor, name.value, next);
      HeaderStep(seen, name.value);
      if SameIgnoringCase(name.value, "match") {
        cols := cols.(matchCol := col);
      } else if SameIgnoringCase(name.value, "question") {
        cols := cols.(questionCol := col);
      } else if SameIgnoringCase(name.value, "answer") {
        cols := cols.(answerCol := col);
      }
      seen := seen + [name.value];
      cursor := next;
      col := col + 1;
    }
  }

  /** A `csv_read` call that yields a field moves it from the unread part of the row to the read part. */
  lemma FieldsStep(line: string, seen: seq<string>, cursor: Cursor, f: string, next: Cursor)
    requires ValidCursor(line, cursor) && Fields(line) == seen + FieldsFrom(line, cursor)
    requires ReadField(line, cursor) == (Some(f), next)
    ensures ValidCursor(line, next) && Remaining(line, next) < Remaining(line, cursor)
    ensures Fields(line) == (seen + [f]) + FieldsFrom(line, next)
  {
    FieldsFromStep(line, cursor.pos, f, next);
  }

  /** A `csv_read` call that yields NULL leaves the fields read so far as the whole row. */
  lemma FieldsEnd(line: string, seen: seq<string>, cursor: Cursor)
    requires ValidCursor(line, cursor) && Fields(line) == seen + FieldsFrom(line, cursor)
    requires ReadField(line, cursor).0.None?
    ensures Fields(line) == seen
  {
  }

  lemma HeaderStep(names: seq<string>, n: string)
    ensures var c := HeaderColumns(names);
      var k := |names|;
      HeaderColumns(names + [n]) ==
        if SameIgnoringCase(n, "match") then c.(matchCol := k)
        else if SameIgnoringCase(n, "question") then c.(questionCol := k)
        else if SameIgnoringCase(n, "answer") then c.(answerCol := k)
        else c
  {
    assert (names + [n])[..|names|] == names;
  }

  // ---------------------------------------------------------------------
  // The rows (file_questions.c:184-218)
  // ---------------------------------------------------------------------

  /** The three fields a row yields, NULL when the row is too short or the column is absent. */
  datatype Row = Row(matchText: Option<string>, question: Option<string>, answer: Option<string>)

  function Column(fields: seq<string>, k: int): Option<string> {
    if 0 <= k < |fields| then Some(fields[k]) else None
  }

  function RowOf(fields: seq<string>, cols: Columns): Row {
    Row(Column(fields, cols.matchCol), Column(fields, cols.questionCol), Column(fields, cols.answerCol))
  }

  /** The row loop: each field goes to the column it sits in, or is dropped. */
  method ReadRow(line: string, cols: Columns) returns (row: Row)
    requires Distinct(cols)
    ensures row == RowOf(Fields(line), cols)
  {
    var cursor := At(0);
    ghost var seen: seq<string> := [];
    row := Row(None, None, None);
    var col := 0;
    while true
      invariant ValidCursor(line, cursor) && col == |seen|
      invariant Fields(line) == seen + FieldsFrom(line, cursor)
      invariant row == RowOf(seen, cols)
      decreases Remaining(line, cursor)
    {
      var value, next := CsvRead(line, cursor);
      if value.None? {
        FieldsEnd(line, seen, cursor);
        return;
      }
      FieldsStep(line, seen, cursor, value.value, next);
      RowStep(seen, value.value, cols);
      if col == cols.matchCol {
        row := row.(matchText := value);
      } else if col == cols.questionCol {
        row := row.(question := value);
      } else if col == cols.answerCol {
        row := row.(answer := value);
      }
      seen := seen + [value.value];
      cursor := next;
      col := col + 1;
    }
  }

  lemma RowStep(fields: seq<string>, f: string, cols: Columns)
    requires Distinct(cols)
    ensures var r := RowOf(fields, cols);
      var k := |fields|;
      RowOf(fields + [f], cols) ==
        if k == cols.matchCol then r.(matchText := Some(f))
        else if k == cols.questionCol then r.(question := Some(f))
        else if k == cols.answerCol then r.(answer := Some(f))
        else r
  {
  }

  /** A row is offered when it has both fields and its match text, empty when absent, fits the pattern. */
  predicate Eligible(row: Row, matches: string -> bool) {
    row.question.Some? && row.answer.Some? && matches(row.matchText.GetOr(""))
  }

  // ---------------------------------------------------------------------
  // Reservoir sampling (file_questions.c:179-251)
  // ---------------------------------------------------------------------

  /** The loop's state: eligible rows seen, the question and answer held, reads consumed. */
  datatype Pick = Pick(index: nat, held: Option<(string, string)>, pos: nat)

  /**
   * One row: an eligible row is the `index + 1`-th, and replaces the held
   * one exactly when the draw over `[0, index + 1)` is 0.
   */
  function StepRow(line: string, cols: Columns, matches: string -> bool, words: seq<Read>, st: Pick): (r: Option<Pick>)
    requires st.pos <= |words|
    ensures r.Some? ==> st.pos <= r.value.pos <= |words|
  {
    var row := RowOf(Fields(line), cols);
    if !Eligible(row, matches) then Some(st)
    else
      match Draw(words, st.pos, 0, st.index + 1)
      case None => None
      case Some((x, j)) =>
        Some(Pick(st.index + 1, if x == 0 then Some((row.question.value, row.answer.value)) else st.held, j))
  }

  /** The loop over `rows`; None when the entropy source runs out. */
  function ScanRows(rows: seq<string>, cols: Columns, matches: string -> bool, words: seq<Read>): (r: Option<Pick>)
    ensures r.Some? ==> r.value.pos <= |words|
  {
    if rows == [] then Some(Pick(0, None, 0))
    else
      match ScanRows(rows[..|rows| - 1], cols, matches, words)
      case None => None
      case Some(st) => StepRow(rows[|rows| - 1], cols, matches, words, st)
  }

  /** The question and answer of every eligible row, in file order. */
  function Candidates(rows: seq<string>, cols: Columns, matches: string -> bool): (cs: seq<(string, string)>)
    ensures |cs| <= |rows|
  {
    if rows == [] then []
    else
      var row := RowOf(Fields(rows[|rows| - 1]), cols);
      Candidates(rows[..|rows| - 1], cols, matches) +
        (if Eligible(row, matches) then [(row.question.value, row.answer.value)] else [])
  }

  /**
   * The loop counts the eligible rows, holds a row exactly when it has
   * seen one (the first is always taken: its draw over `[0, 1)` is 0), and
   * what it holds is one of them.
   */
  lemma {:induction false} ReservoirInvariant(rows: seq<string>, cols: Columns, matches: string -> bool, words: seq<Read>)
    ensures var r := ScanRows(rows, cols, matches, words);
      var cs := Candidates(rows, cols, matches);
      r.Some? ==> (r.value.index == |cs| && (r.value.held.Some? <==> |cs| > 0) &&
        (r.value.held.Some? ==> r.value.held.value in cs))
  {
    if rows != [] {
      ReservoirInvariant(rows[..|rows| - 1], cols, matches, words);
    }
  }

  /** The first eligible row is always taken. */
  lemma FirstEligibleTaken(line: string, cols: Columns, matches: string -> bool, words: seq<Read>, pos: nat)
    requires pos <= |words|
    requires Eligible(RowOf(Fields(line), cols), matches)
    ensures var r := StepRow(line, cols, matches, words, Pick(0, None, pos));
      var row := RowOf(Fields(line), cols);
      r.Some? ==> r.value.held == Some((row.question.value, row.answer.value))
  {
  }

  /** The state `check_answer` needs. */
  datatype AnswerState = AnswerState(answer: string, ignoreCase: int32)

  /**
   * `regexec` with the pattern compiled from `pattern`: `regex(pattern,
   * text)` says whether the text fits it. Rows are filtered with the
   * anchored pattern `BuildConfig` compiled.
   */
  function Matcher(regex: (string, string) -> bool, pattern: string): string -> bool {
    text => regex(pattern, text)
  }

  /** Every line of the file has been through `csv_start` (file_questions.c:158, 189). */
  predicate CsvLines(lines: seq<string>) {
    forall k :: 0 <= k < |lines| ==> CsvLine(lines[k])
  }

  /**
   * `make_question`: the chosen question followed by a space, and its
   * answer. None when the entropy source or the file cannot be opened,
   * the file is empty, a needed column is missing, no row is eligible, or
   * the reads run out.
   */
  function Generate(cfg: FileConfig, entropy: Option<seq<Read>>, file: Option<seq<string>>, regex: (string, string) -> bool):
    (r: Option<(string, AnswerState)>)
    requires file.Some? ==> CsvLines(file.value)
    ensures r.Some? ==> file.Some? && |file.value| >= 1
    ensures r.Some? ==> exists qa :: (qa in Candidates(file.value[1..], HeaderColumns(Fields(file.value[0])), Matcher(regex, cfg.pattern)) &&
      r.value == (qa.0 + " ", AnswerState(qa.1, cfg.ignoreCase)))
  {
    if entropy.None? || file.None? || file.value == [] then None
    else
      var cols, matches := HeaderColumns(Fields(file.value[0])), Matcher(regex, cfg.pattern);
      if cols.questionCol == -1 || cols.answerCol == -1 then None
      else
        ReservoirInvariant(file.value[1..], cols, matches, entropy.value);
        match ScanRows(file.value[1..], cols, matches, entropy.value)
        case None => None
        case Some(st) =>
          match st.held
          case None => None
          case Some((q, a)) => Some((q + " ", AnswerState(a, cfg.ignoreCase)))
  }

  /** Without an eligible row there is no question. */
  lemma NoCandidateNoQuestion(cfg: FileConfig, words: seq<Read>, lines: seq<string>, regex: (string, string) -> bool)
    requires |lines| >= 1 && CsvLines(lines) && Candidates(lines[1..], HeaderColumns(Fields(lines[0])), Matcher(regex, cfg.pattern)) == []
    ensures Generate(cfg, Some(words), Some(lines), regex) == None
  {
  }

  /** A header without a `question` or an `answer` column gives no question. */
  lemma MissingColumnNoQuestion(cfg: FileConfig, words: seq<Read>, lines: seq<string>, regex: (string, string) -> bool)
    requires |lines| >= 1 && CsvLines(lines)
    requires var names := Fields(lines[0]);
      LastIndexOf(names, "question") == -1 || LastIndexOf(names, "answer") == -1
    ensures Generate(cfg, Some(words), Some(lines), regex) == None
  {
    HeaderColumnsLastWins(Fields(lines[0]));
  }

  /** One row of the loop, as `make_question` handles it. */
  method OfferRow(line: string, cols: Columns, matches: string -> bool, words: seq<Read>, st: Pick)
    returns (r: Option<Pick>)
    requires Distinct(cols) && st.pos <= |words|
    ensures r == StepRow(line, cols, matches, words, st)
  {
    var row := ReadRow(line, cols);
    if row.question.None? || row.answer.None? {
      return Some(st);
    }
    if !matches(row.matchText.GetOr("")) {
      return Some(st);
    }
    var index := st.index + 1;
    var x := RandInt(words, st.pos, 0, index);
    if x.None? {
      return None;
    }
    if x.value.0 == 0 {
      return Some(Pick(index, Some((row.question.value, row.answer.value)), x.value.1));
    }
    return Some(Pick(index, st.held, x.value.1));
  }

  method MakeQuestion(cfg: FileConfig, entropy: Option<seq<Read>>, file: Option<seq<string>>, regex: (string, string) -> bool)
    returns (r: Option<(string, AnswerState)>)
    requires file.Some? ==> CsvLines(file.value)
    ensures r == Generate(cfg, entropy, file, regex)
  {
    if entropy.None? || file.None? || file.value == [] {
      return None;
    }
    var words, lines, matches := entropy.value, file.value, Matcher(regex, cfg.pattern);
    var cols := FindColumns(lines[0]);
    if cols.questionCol == -1 || cols.answerCol == -1 {
      return None;
    }
    var rows := lines[1..];
    var st := Pick(0, None, 0);
    var n := 0;
    while n < |rows|
      invariant n <= |rows| && st.pos <= |words|
      invariant ScanRows(rows[..n], cols, matches, words) == Some(st)
    {
      var next := OfferRow(rows[n], cols, matches, words, st);
      ScanRowsStep(rows, n, cols, matches, words, st);
      if next.None? {
        ScanRowsExhausted(rows, cols, matches, words, n + 1);
        return None;
      }
      st := next.value;
      n := n + 1;
    }
    assert rows[..n] == rows;
    if st.held.None? {
      return None;
    }
    r := Some((st.held.value.0 + " ", AnswerState(st.held.value.1, cfg.ignoreCase)));
  }

  lemma ScanRowsStep(rows: seq<string>, n: nat, cols: Columns, matches: string -> bool, words: seq<Read>, st: Pick)
    requires n < |rows| && ScanRows(rows[..n], cols, matches, words) == Some(st)
    ensures ScanRows(rows[..n + 1], cols, matches, words) == StepRow(rows[n], cols, matches, words, st)
  {
    assert rows[..n + 1][..n] == rows[..n];
  }

  /** Once the reads run out part-way, the whole scan has run out. */
  lemma {:induction false} ScanRowsExhausted(rows: seq<string>, cols: Columns, matches: string -> bool, words: seq<Read>, n: nat)
    requires 1 <= n <= |rows| && ScanRows(rows[..n], cols, matches, words) == None
    ensures ScanRows(rows, cols, matches, words) == None
    decreases |rows| - n
  {
    if n < |rows| {
      assert rows[..n + 1][..n] == rows[..n];
      ScanRowsExhausted(rows, cols, matches, words, n + 1);
    } else {
      assert rows[..n] == rows;
    }
  }

  // ---------------------------------------------------------------------
  // Answers (file_questions.c:254-263)
  // ---------------------------------------------------------------------

  /** `get_answer`: a copy of the answer. */
  function GetAnswer(st: AnswerState): string {
    st.answer
  }

  /** `check_answer`: exact equality, or equality ignoring case when `ignore_case` is nonzero. */
  function CheckAnswer(st: AnswerState, given: string): bool {
    if st.ignoreCase != 0 then SameIgnoringCase(given, st.answer) else given == st.answer
  }

  /** The answer shown is always accepted; only `ignore_case` lets a different spelling through. */
  lemma CheckAnswerModes(st: AnswerState, given: string)
    ensures CheckAnswer(st, GetAnswer(st))
    ensures st.ignoreCase == 0 ==> (CheckAnswer(st, given) <==> given == st.answer)
    ensures CheckAnswer(st, given) ==> |given| == |st.answer|
  {
  }

  /** With `ignore_case`, a reply differing only in the case of ASCII letters is accepted. */
  lemma IgnoreCaseExample()
    ensures CheckAnswer(AnswerState("Paris", 1), "PARIS")
    ensures !CheckAnswer(AnswerState("Paris", 0), "PARIS")
  {
    assert LowerString("PARIS") == LowerString("Paris");
    assert "PARIS"[1] != "Paris"[1];
  }
}
