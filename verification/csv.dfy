/**
 * csv.c: a forward-only cursor over one line of comma-separated fields, with
 * quoted fields and doubled-quote escapes in the style of section 2 of RFC 4180.
 */
module Csv {
  import opened Opt
  import opened Helpers

  /** The caller's `csv_buf`: a position in the line, or NULL once the row has ended. */
  datatype Cursor = Done | At(pos: nat)

  predicate ValidCursor(line: string, cur: Cursor) {
    cur.At? ==> cur.pos <= |line|
  }

  /** How much a cursor still has to read; it drops with every call that yields a field. */
  function Remaining(line: string, cur: Cursor): nat
    requires ValidCursor(line, cur)
  {
    if cur.Done? then 0 else |line| - cur.pos + 1
  }

  // ---------------------------------------------------------------------
  // csv_start (csv.c:9-21)
  // ---------------------------------------------------------------------

  predicate IsLineEnd(c: char) {
    c == '\0' || c == '\r' || c == '\n'
  }

  predicate HasNul(s: seq<char>, from: nat) {
    exists j :: from <= j < |s| && s[j] == '\0'
  }

  /** The index of the first CR, LF or NUL at or after `from`. */
  function LineEndFrom(s: seq<char>, from: nat): (e: nat)
    requires from <= |s| && HasNul(s, from)
    ensures from <= e < |s| && IsLineEnd(s[e])
    ensures forall j :: from <= j < e ==> !IsLineEnd(s[j])
    decreases |s| - from
  {
    if IsLineEnd(s[from]) then from
    else
      assert HasNul(s, from + 1) by {
        var j :| from <= j < |s| && s[j] == '\0';
        assert j != from;
      }
      LineEndFrom(s, from + 1)
  }

  /** A line as `csv_start` leaves it: no CR, LF or NUL inside, so `strchr` sees all of it. */
  predicate CsvLine(line: string) {
    forall i :: 0 <= i < |line| ==> !IsLineEnd(line[i])
  }

  function LineEnd(s: seq<char>): nat
    requires HasNul(s, 0)
  {
    LineEndFrom(s, 0)
  }

  /**
   * `csv_start`: ends the line in place at its first CR, LF or NUL, leaves
   * every other byte of the buffer as it was, and points the cursor at the
   * start of the line.
   */
  method CsvStart(s: array<char>) returns (cursor: Cursor)
    requires HasNul(s[..], 0)
    modifies s
    ensures cursor == At(0)
    ensures s[..] == old(s[..])[LineEnd(old(s[..])) := '\0']
    ensures CString(s[..]) == old(s[..])[..LineEnd(old(s[..]))]
    ensures CsvLine(CString(s[..]))
  {
    cursor := At(0);
    ghost var e := LineEnd(s[..]);
    var i := 0;
    while true
      invariant 0 <= i <= e
      invariant s[..] == old(s[..])
      decreases e - i
    {
      if IsLineEnd(s[i]) {
        s[i] := '\0';
        CStringOfTerminated(s[..], i);
        return;
      }
      i := i + 1;
    }
  }

  // ---------------------------------------------------------------------
  // csv_read (csv.c:23-74)
  // ---------------------------------------------------------------------

  /** `strchr`: the first index at or after `from` holding `c`. */
  function Find(line: string, from: nat, c: char): (r: Option<nat>)
    requires from <= |line|
    ensures r.Some? ==> from <= r.value < |line| && line[r.value] == c
    decreases |line| - from
  {
    if from == |line| then None
    else if line[from] == c then Some(from)
    else Find(line, from + 1, c)
  }

  /** `strchr` skips only other characters: what lies before its result is not `c`. */
  lemma {:induction false} FindSkips(line: string, from: nat, c: char)
    requires from <= |line|
    ensures var r := Find(line, from, c);
      forall j :: from <= j < (if r.Some? then r.value else |line|) ==> line[j] != c
    decreases |line| - from
  {
    if from < |line| && line[from] != c {
      FindSkips(line, from + 1, c);
    }
  }

  /**
   * The rest of a quoted field whose quote (the opening one, or the second
   * of a doubled pair) is at `q`, and where the cursor goes afterwards.
   */
  function ScanQuoted(line: string, q: nat): (r: (string, Cursor))
    requires q < |line|
    ensures |r.0| <= |line| - q - 1
    ensures r.1.At? ==> q < r.1.pos <= |line|
    decreases |line| - q
  {
    var start := q + 1;
    match Find(line, start, '"')
    case None => (line[start..], Done)
    case Some(e) =>
      var chunk := line[start..e];
      if e + 1 == |line| then (chunk, Done)
      else if line[e + 1] == '"' then
        var rest := ScanQuoted(line, e + 1);
        (chunk + "\"" + rest.0, rest.1)
      else if line[e + 1] == ',' then (chunk, At(e + 2))
      else (chunk + line[e + 1..], Done)
  }

  /**
   * What one `csv_read` call yields from cursor `cur`, and the cursor after it.
   * An exhausted cursor yields NULL and stays exhausted; a live one always
   * yields a field no longer than what is left, and either moves strictly
   * forward or ends the row.
   */
  function ReadField(line: string, cur: Cursor): (r: (Option<string>, Cursor))
    requires ValidCursor(line, cur)
    ensures cur.Done? ==> r == (None, Done)
    ensures cur.At? ==> r.0.Some? && |r.0.value| <= |line| - cur.pos
    ensures r.1.At? ==> cur.At? && cur.pos < r.1.pos <= |line|
  {
    match cur
    case Done => (None, Done)
    case At(p) =>
      if p < |line| && line[p] == '"' then
        var (f, next) := ScanQuoted(line, p);
        (Some(f), next)
      else
        match Find(line, p, ',')
        case None => (Some(line[p..]), Done)
        case Some(e) => (Some(line[p..e]), At(e + 1))
  }

  /**
   * `csv_read` with the cursor advanced through `*buf` at csv.c:32, which is
   * what the surrounding code relies on (see ReadFieldAsWritten).
   */
  method CsvRead(line: string, cursor: Cursor) returns (field: Option<string>, next: Cursor)
    requires ValidCursor(line, cursor)
    ensures (field, next) == ReadField(line, cursor)
  {
    if cursor.Done? {
      return None, Done;
    }
    var pos := cursor.pos;
    if pos < |line| && line[pos] == '"' {
      var ret;
      ret, next := ReadQuoted(line, pos);
      ReadFieldQuoted(line, pos);
      return Some(ret), next;
    } else {
      var endptr := Find(line, pos, ',');
      if endptr.None? {
        return Some(line[pos..]), Done;
      }
      return Some(line[pos..endptr.value]), At(endptr.value + 1);
    }
  }

  /**
   * The quoted branch of `csv_read`: runs between quotes are appended to the
   * field, a doubled quote gives one quote and the scan goes on.
   */
  method ReadQuoted(line: string, start: nat) returns (ret: string, next: Cursor)
    requires start < |line|
    ensures ret == ScanQuoted(line, start).0 && next == ScanQuoted(line, start).1
  {
    ghost var total := ScanQuoted(line, start);
    var pos := start;
    ret := "";
    assert ret + ScanQuoted(line, pos).0 == ScanQuoted(line, pos).0;
    while true
      invariant pos < |line|
      invariant total.0 == ret + ScanQuoted(line, pos).0
      invariant total.1 == ScanQuoted(line, pos).1
      decreases |line| - pos
    {
      var more;
      ret, pos, more, next := ReadRun(line, pos, total, ret);
      if !more {
        return;
      }
    }
  }

  /**
   * One pass of the loop in ReadQuoted: the run after the quote at `q` up to
   * the next quote, and what follows that quote.
   */
  method ReadRun(line: string, q: nat, ghost total: (string, Cursor), r0: string)
    returns (ret: string, pos: nat, more: bool, next: Cursor)
    requires q < |line|
    requires total.0 == r0 + ScanQuoted(line, q).0 && total.1 == ScanQuoted(line, q).1
    ensures more ==> q < pos < |line|
    ensures more ==> total.0 == ret + ScanQuoted(line, pos).0 && total.1 == ScanQuoted(line, pos).1
    ensures !more ==> total == (ret, next)
  {
    pos := q + 1;
    var endptr := Find(line, pos, '"');
    if endptr.None? {
      ScanOpenInv(line, q, total, r0);
      return r0 + line[pos..], pos, false, Done;
    }
    var e := endptr.value;
    ret := r0 + line[pos..e];
    pos := e + 1;
    if pos == |line| {
      ScanCloseInv(line, q, e, total, r0);
      return ret, pos, false, Done;
    }
    if line[pos] == '"' {
      ScanDoubledInv(line, q, e, total, r0);
      return ret + "\"", pos, true, Done;
    }
    if line[pos] == ',' {
      ScanCloseInv(line, q, e, total, r0);
      return ret, pos, false, At(pos + 1);
    }
    ScanStrayInv(line, q, e, total, r0);
    return ret + line[pos..], pos, false, Done;
  }

  /** The loop invariant of ReadQuoted, carried through each way a run between quotes ends. */
  lemma ScanOpenInv(line: string, q: nat, total: (string, Cursor), r0: string)
    requires q < |line| && Find(line, q + 1, '"') == None
    requires total.0 == r0 + ScanQuoted(line, q).0 && total.1 == ScanQuoted(line, q).1
    ensures total == (r0 + line[q + 1..], Done)
  {
    ScanQuotedStepOpen(line, q);
  }

  lemma ScanCloseInv(line: string, q: nat, e: nat, total: (string, Cursor), r0: string)
    requires q < e < |line| && Find(line, q + 1, '"') == Some(e)
    requires e + 1 == |line| || line[e + 1] == ','
    requires total.0 == r0 + ScanQuoted(line, q).0 && total.1 == ScanQuoted(line, q).1
    ensures total == (r0 + line[q + 1..e], if e + 1 == |line| then Done else At(e + 2))
  {
    ScanQuotedStepClose(line, q, e);
  }

  lemma ScanDoubledInv(line: string, q: nat, e: nat, total: (string, Cursor), r0: string)
    requires q < e && e + 1 < |line| && Find(line, q + 1, '"') == Some(e) && line[e + 1] == '"'
    requires total.0 == r0 + ScanQuoted(line, q).0 && total.1 == ScanQuoted(line, q).1
    ensures total.0 == r0 + line[q + 1..e] + "\"" + ScanQuoted(line, e + 1).0
    ensures total.1 == ScanQuoted(line, e + 1).1
  {
    ScanQuotedStepDoubled(line, q, e);
    Append3(r0, line[q + 1..e], "\"", ScanQuoted(line, e + 1).0);
  }

  lemma ScanStrayInv(line: string, q: nat, e: nat, total: (string, Cursor), r0: string)
    requires q < e && e + 1 < |line| && Find(line, q + 1, '"') == Some(e)
    requires line[e + 1] != '"' && line[e + 1] != ','
    requires total.0 == r0 + ScanQuoted(line, q).0 && total.1 == ScanQuoted(line, q).1
    ensures total == (r0 + line[q + 1..e] + line[e + 1..], Done)
  {
    ScanQuotedStepStray(line, q, e);
    Append2(r0, line[q + 1..e], line[e + 1..]);
  }

  lemma Append2(a: string, b: string, c: string)
    ensures a + (b + c) == a + b + c
  {
  }

  lemma Append3(a: string, b: string, c: string, d: string)
    ensures a + (b + c + d) == a + b + c + d
  {
  }

  // ---------------------------------------------------------------------
  // A whole row
  // ---------------------------------------------------------------------

  /** The fields successive `csv_read` calls yield from `cur` until NULL. */
  function FieldsFrom(line: string, cur: Cursor): (fs: seq<string>)
    requires ValidCursor(line, cur)
    ensures |fs| <= Remaining(line, cur)
    ensures cur.At? ==> |fs| >= 1
    decreases Remaining(line, cur)
  {
    var (f, next) := ReadField(line, cur);
    if f.None? then [] else [f.value] + FieldsFrom(line, next)
  }

  /** The fields of a row: at least one, and at most one more than its length. */
  function Fields(line: string): (fs: seq<string>)
    ensures 1 <= |fs| <= |line| + 1
  {
    FieldsFrom(line, At(0))
  }

  /** The fields separated by commas, as written back into one line. */
  function Join(fs: seq<string>): string
    requires |fs| >= 1
  {
    if |fs| == 1 then fs[0] else fs[0] + "," + Join(fs[1..])
  }

  /** One `csv_read` call from a live cursor, then the rest of the row. */
  lemma FieldsFromAt(line: string, p: nat)
    requires p <= |line|
    ensures var (f, next) := ReadField(line, At(p));
      FieldsFrom(line, At(p)) == [f.value] + FieldsFrom(line, next)
  {
  }

  /** The row from a live cursor, given what the `csv_read` call there yields. */
  lemma FieldsFromStep(line: string, p: nat, f: string, next: Cursor)
    requires p <= |line| && ReadField(line, At(p)) == (Some(f), next)
    ensures FieldsFrom(line, At(p)) == [f] + FieldsFrom(line, next)
  {
  }

  /** An unquoted field before a comma at `e`. */
  lemma ReadFieldComma(line: string, p: nat, e: nat)
    requires p <= |line| && (p == |line| || line[p] != '"') && Find(line, p, ',') == Some(e)
    ensures ReadField(line, At(p)) == (Some(line[p..e]), At(e + 1))
  {
  }

  /** An unquoted field that runs to the end of the row. */
  lemma ReadFieldLast(line: string, p: nat)
    requires p <= |line| && (p == |line| || line[p] != '"') && Find(line, p, ',') == None
    ensures ReadField(line, At(p)) == (Some(line[p..]), Done)
  {
  }

  /** One `csv_read` call from a live cursor that is not on a quote. */
  lemma UnquotedStep(line: string, p: nat)
    requires p <= |line| && (p == |line| || line[p] != '"')
    ensures Find(line, p, ',').None? ==> FieldsFrom(line, At(p)) == [line[p..]]
    ensures Find(line, p, ',').Some? ==> var e := Find(line, p, ',').value;
      FieldsFrom(line, At(p)) == [line[p..e]] + FieldsFrom(line, At(e + 1))
  {
    assert FieldsFrom(line, Done) == [];
  }

  lemma JoinCons(x: string, rest: seq<string>)
    requires |rest| >= 1
    ensures Join([x] + rest) == x + "," + Join(rest)
  {
    assert ([x] + rest)[1..] == rest;
  }

  lemma {:induction false} UnquotedJoin(line: string, p: nat)
    requires p <= |line| && '"' !in line
    ensures Join(FieldsFrom(line, At(p))) == line[p..]
    decreases |line| - p
  {
    assert p < |line| ==> line[p] != '"' by {
      if p < |line| { assert line[p] in line; }
    }
    match Find(line, p, ',')
    case None =>
      UnquotedStep(line, p);
    case Some(e) =>
      UnquotedJoin(line, e + 1);
      UnquotedJoinStep(line, p, e);
  }

  /** The comma at `e` joins the field before it to the rest of the row. */
  lemma UnquotedJoinStep(line: string, p: nat, e: nat)
    requires p <= |line| && (p == |line| || line[p] != '"') && Find(line, p, ',') == Some(e)
    requires Join(FieldsFrom(line, At(e + 1))) == line[e + 1..]
    ensures Join(FieldsFrom(line, At(p))) == line[p..]
  {
    UnquotedStep(line, p);
    var fs, rest := FieldsFrom(line, At(p)), FieldsFrom(line, At(e + 1));
    var x, y := line[p..e], line[e + 1..];
    assert Join(fs) == x + "," + y by {
      JoinCons(x, rest);
    }
    assert line[p..] == x + "," + y by {
      SliceAround(line, p, e);
    }
  }

  /** The suffix from `p` is the part before `e`, the character at `e`, and the rest. */
  lemma SliceAround(line: string, p: nat, e: nat)
    requires p <= e < |line|
    ensures line[p..] == line[p..e] + [line[e]] + line[e + 1..]
  {
  }

  lemma {:induction false} UnquotedNoComma(line: string, p: nat)
    requires p <= |line| && '"' !in line
    ensures forall f :: f in FieldsFrom(line, At(p)) ==> ',' !in f
    decreases |line| - p
  {
    assert p < |line| ==> line[p] != '"' by {
      if p < |line| { assert line[p] in line; }
    }
    UnquotedStep(line, p);
    FindSkips(line, p, ',');
    match Find(line, p, ',')
    case None =>
      assert ',' !in line[p..];
    case Some(e) =>
      assert ',' !in line[p..e];
      UnquotedNoComma(line, e + 1);
  }

  /**
   * A line without quotes splits exactly at its commas: no field holds a
   * comma and joining the fields with commas gives the line back (so a
   * trailing comma yields a final empty field).
   */
  lemma UnquotedLineSplitsOnCommas(line: string)
    requires '"' !in line
    ensures Join(Fields(line)) == line
    ensures forall f :: f in Fields(line) ==> ',' !in f
  {
    UnquotedJoin(line, 0);
    UnquotedNoComma(line, 0);
  }

  /** A trailing comma adds one empty field to a line without quotes. */
  lemma {:induction false} TrailingCommaAddsEmptyField(line: string)
    requires '"' !in line
    ensures Fields(line + ",") == Fields(line) + [""]
  {
    TrailingCommaFrom(line, 0);
  }

  lemma {:induction false} TrailingCommaFrom(line: string, p: nat)
    requires '"' !in line && p <= |line|
    ensures FieldsFrom(line + ",", At(p)) == FieldsFrom(line, At(p)) + [""]
    decreases |line| - p
  {
    match Find(line, p, ',')
    case None =>
      TrailingCommaLast(line, p);
    case Some(e) =>
      TrailingCommaFrom(line, e + 1);
      TrailingCommaStep(line, p, e);
  }

  /** Not on a quote: `p` is the end of the line or holds another character. */
  lemma NotOnQuote(line: string, p: nat)
    requires '"' !in line && p <= |line|
    ensures p == |line| || line[p] != '"'
    ensures p == |line| || (line + ",")[p] != '"'
  {
    if p < |line| {
      assert line[p] in line;
      assert (line + ",")[p] == line[p];
    }
  }

  /** The last field of a line without quotes gains an empty field after it. */
  lemma TrailingCommaLast(line: string, p: nat)
    requires '"' !in line && p <= |line| && Find(line, p, ',') == None
    ensures FieldsFrom(line + ",", At(p)) == FieldsFrom(line, At(p)) + [""]
  {
    var l2 := line + ",";
    NotOnQuote(line, p);
    assert FieldsFrom(line, At(p)) == [line[p..]] by {
      ReadFieldLast(line, p);
      FieldsFromStep(line, p, line[p..], Done);
    }
    assert FieldsFrom(l2, At(p)) == [line[p..], ""] by {
      assert Find(l2, p, ',') == Some(|line|) by {
        FindAppend(line, ",", p, ',');
        assert l2[|line|] == ',';
      }
      EmptyLastField(l2);
      AppendSlice(line, ",", p, |line|);
      ReadFieldComma(l2, p, |line|);
      FieldsFromStep(l2, p, line[p..], At(|line| + 1));
    }
  }

  /** A field before a comma reads the same with the trailing comma added. */
  lemma TrailingCommaStep(line: string, p: nat, e: nat)
    requires '"' !in line && p <= |line| && Find(line, p, ',') == Some(e)
    requires FieldsFrom(line + ",", At(e + 1)) == FieldsFrom(line, At(e + 1)) + [""]
    ensures FieldsFrom(line + ",", At(p)) == FieldsFrom(line, At(p)) + [""]
  {
    var l2 := line + ",";
    NotOnQuote(line, p);
    FindAppend(line, ",", p, ',');
    AppendSlice(line, ",", p, e);
    ReadFieldComma(l2, p, e);
    FieldsFromStep(l2, p, line[p..e], At(e + 1));
    ReadFieldComma(line, p, e);
    FieldsFromStep(line, p, line[p..e], At(e + 1));
  }

  /** Text appended after a line does not change a search that succeeds within it. */
  lemma {:induction false} FindAppend(line: string, t: string, p: nat, c: char)
    requires p <= |line|
    ensures Find(line + t, p, c) ==
      if Find(line, p, c).Some? then Find(line, p, c) else Find(line + t, |line|, c)
    decreases |line| - p
  {
    if p < |line| {
      assert (line + t)[p] == line[p];
      if line[p] != c {
        FindAppend(line, t, p + 1, c);
      }
    }
  }

  lemma AppendSlice(a: string, t: string, p: nat, e: nat)
    requires p <= e <= |a|
    ensures (a + t)[p..e] == a[p..e]
  {
  }

  /** Reading from the very end of a row gives one empty field. */
  lemma EmptyLastField(line: string)
    ensures FieldsFrom(line, At(|line|)) == [""]
  {
    assert Find(line, |line|, ',') == None;
    ReadFieldLast(line, |line|);
    FieldsFromStep(line, |line|, "", Done);
  }

  // ---------------------------------------------------------------------
  // Quoting (section 2 of RFC 4180) and the tokenizer as its inverse
  // ---------------------------------------------------------------------

  function EscapeChar(c: char): string {
    if c == '"' then "\"\"" else [c]
  }

  /** Every quote doubled. */
  function Escape(s: string): string {
    if s == [] then [] else EscapeChar(s[0]) + Escape(s[1..])
  }

  /** A field written as a quoted field. */
  function Quote(s: string): string {
    "\"" + Escape(s) + "\""
  }

  /** A field as an RFC 4180 writer emits it: quoted when it holds a quote or a comma. */
  function EncodeField(f: string): string {
    if '"' in f || ',' in f then Quote(f) else f
  }

  /** A row as an RFC 4180 writer emits it. */
  function EncodeRow(fs: seq<string>): string
    requires |fs| >= 1
  {
    if |fs| == 1 then EncodeField(fs[0]) else EncodeField(fs[0]) + "," + EncodeRow(fs[1..])
  }

  lemma {:induction false} EscapeAppend(a: string, b: string)
    ensures Escape(a + b) == Escape(a) + Escape(b)
  {
    if a == [] {
      assert a + b == b;
    } else {
      assert (a + b)[0] == a[0];
      assert (a + b)[1..] == a[1..] + b;
      EscapeAppend(a[1..], b);
      calc {
        Escape(a + b);
        EscapeChar(a[0]) + Escape(a[1..] + b);
        EscapeChar(a[0]) + (Escape(a[1..]) + Escape(b));
        Escape(a) + Escape(b);
      }
    }
  }

  lemma {:induction false} EscapeQuoteFree(s: string)
    requires '"' !in s
    ensures Escape(s) == s
  {
    if s != [] {
      assert s[0] in s;
      assert '"' !in s[1..] by {
        forall c | c in s[1..] ensures c != '"' { assert c in s; }
      }
      EscapeQuoteFree(s[1..]);
    }
  }

  /** `Find` returns the first occurrence. */
  lemma {:induction false} FindFirst(line: string, from: nat, c: char, k: nat)
    requires from <= k < |line| && line[k] == c
    requires forall j :: from <= j < k ==> line[j] != c
    ensures Find(line, from, c) == Some(k)
    decreases k - from
  {
    if from < k {
      FindFirst(line, from + 1, c, k);
    }
  }

  /** A run of text without quotes, then a quote: `strchr` stops at that quote. */
  lemma QuoteFreeRun(line: string, start: nat, u: string)
    requires '"' !in u && start + |u| < |line|
    requires line[start..start + |u|] == u && line[start + |u|] == '"'
    ensures Find(line, start, '"') == Some(start + |u|)
  {
    forall j | start <= j < start + |u| ensures line[j] != '"' {
      assert line[j] == u[j - start];
    }
    FindFirst(line, start, '"', start + |u|);
  }

  /** `a + u + b` holds `u` at offset `|a|`, and `b` right after it. */
  lemma MiddleSlice(a: string, u: string, b: string)
    ensures (a + u + b)[|a|..|a| + |u|] == u
    ensures |b| > 0 ==> (a + u + b)[|a| + |u|] == b[0]
    ensures |b| > 1 ==> (a + u + b)[|a| + |u| + 1] == b[1]
  {
  }

  /** One step of the quoted scan that finds no further quote. */
  lemma ScanQuotedStepOpen(line: string, q: nat)
    requires q < |line| && Find(line, q + 1, '"') == None
    ensures ScanQuoted(line, q) == (line[q + 1..], Done)
  {
  }

  /** One step of the quoted scan that meets a doubled quote. */
  lemma ScanQuotedStepDoubled(line: string, q: nat, e: nat)
    requires q < e && e + 1 < |line| && Find(line, q + 1, '"') == Some(e) && line[e + 1] == '"'
    ensures ScanQuoted(line, q) == (line[q + 1..e] + "\"" + ScanQuoted(line, e + 1).0, ScanQuoted(line, e + 1).1)
  {
  }

  /** The closing quote of a quoted field, at the end of the row or before a comma. */
  lemma ScanQuotedStepClose(line: string, q: nat, e: nat)
    requires q < e < |line| && Find(line, q + 1, '"') == Some(e)
    requires e + 1 == |line| || line[e + 1] == ','
    ensures ScanQuoted(line, q) == (line[q + 1..e], if e + 1 == |line| then Done else At(e + 2))
  {
  }

  /** Splitting a slice that holds `x + y` into the slice of `x` and the slice of `y`. */
  lemma SliceSplit(line: string, from: nat, to: nat, x: string, y: string)
    requires from <= to <= |line| && line[from..to] == x + y
    ensures line[from..from + |x|] == x && line[from + |x|..to] == y
  {
    assert line[from..from + |x|] == line[from..to][..|x|];
    assert line[from + |x|..to] == line[from..to][|x|..];
  }

  /**
   * A quoted field is decoded back to its text: the doubled quotes each give
   * one literal quote, and the closing quote either ends the row or, before
   * a comma, leaves the cursor just after that comma.
   */
  lemma ScanQuotedEscaped(pre: string, s: string, t: string)
    requires t == [] || t[0] == ','
    ensures var line := pre + "\"" + Escape(s) + "\"" + t;
      ScanQuoted(line, |pre|) == (s, if t == [] then Done else At(|line| - |t| + 1))
  {
    var line := pre + "\"" + Escape(s) + "\"" + t;
    QuotedTextAt(pre, Escape(s), t);
    ScanQuotedEscapedAt(line, |pre|, |pre| + 1 + |Escape(s)|, s, t);
  }

  /** Where the pieces of `pre + "\"" + e + "\"" + t` lie. */
  lemma QuotedTextAt(pre: string, e: string, t: string)
    ensures var line := pre + "\"" + e + "\"" + t;
      var c := |pre| + 1 + |e|;
      c < |line| && |line| == c + 1 + |t| &&
      line[|pre| + 1..c] == e && line[c] == '"' && line[c + 1..] == t
  {
    var line := pre + "\"" + e + "\"" + t;
    assert line == (pre + "\"") + e + ("\"" + t);
    MiddleSlice(pre + "\"", e, "\"" + t);
  }

  /**
   * The same, stated on the positions of the field inside the row: its
   * opening quote at `q` and its closing quote at `c`.
   */
  lemma {:induction false} ScanQuotedEscapedAt(line: string, q: nat, c: nat, s: string, t: string)
    requires q < c < |line| && line[q + 1..c] == Escape(s)
    requires line[c] == '"' && line[c + 1..] == t && (t == [] || t[0] == ',')
    ensures ScanQuoted(line, q) == (s, if t == [] then Done else At(c + 2))
    decreases |s|
  {
    if '"' !in s {
      EscapeQuoteFree(s);
      ScanQuotedLastRun(line, q, c, s, t);
    } else {
      var u, w, q' := ScanQuotedFirstDoubled(line, q, c, s);
      ScanQuotedEscapedAt(line, q', c, w, t);
    }
  }

  /**
   * The first doubled quote of an escaped field: the scan reads the text
   * before it and one quote, then goes on with the escaped rest of the field.
   */
  lemma ScanQuotedFirstDoubled(line: string, q: nat, c: nat, s: string) returns (u: string, w: string, q': nat)
    requires '"' in s && q < c < |line| && line[q + 1..c] == Escape(s)
    ensures s == u + "\"" + w && |w| < |s|
    ensures q < q' < c && line[q' + 1..c] == Escape(w)
    ensures ScanQuoted(line, q) == (u + "\"" + ScanQuoted(line, q').0, ScanQuoted(line, q').1)
  {
    u, w := EscapedSplit(line, q, c, s);
    q' := q + |u| + 2;
    ScanQuotedDoubled(line, q, u);
  }

  /** The last run of a quoted field: no quote inside, the closing quote, then `t`. */
  lemma ScanQuotedLastRun(line: string, q: nat, c: nat, s: string, t: string)
    requires '"' !in s && q < c < |line| && line[q + 1..c] == s
    requires line[c] == '"' && line[c + 1..] == t && (t == [] || t[0] == ',')
    ensures ScanQuoted(line, q) == (s, if t == [] then Done else At(c + 2))
  {
    if t != [] {
      assert line[c + 1] == line[c + 1..][0];
    }
    QuoteFreeRun(line, q + 1, s);
    ScanQuotedStepClose(line, q, c);
  }

  /** A field holding a quote splits at its first quote, and escapes piecewise. */
  lemma QuoteSplit(s: string) returns (u: string, w: string)
    requires '"' in s
    ensures s == u + "\"" + w && '"' !in u
    ensures Escape(s) == u + "\"\"" + Escape(w)
  {
    var k := FirstQuote(s);
    u, w := s[..k], s[k + 1..];
    assert s == u + ("\"" + w) by {
      assert s == s[..k] + [s[k]] + s[k + 1..];
    }
    EscapeAroundQuote(u, w);
  }

  /** Escaping a quote-free text, a quote and a rest: the quote is doubled. */
  lemma EscapeAroundQuote(u: string, w: string)
    requires '"' !in u
    ensures Escape(u + ("\"" + w)) == u + "\"\"" + Escape(w)
  {
    var ew := Escape(w);
    assert Escape(u + ("\"" + w)) == Escape(u) + Escape("\"" + w) by {
      EscapeAppend(u, "\"" + w);
    }
    assert Escape("\"" + w) == "\"\"" + ew by {
      assert ("\"" + w)[0] == '"' && ("\"" + w)[1..] == w;
    }
    assert Escape(u) == u by {
      EscapeQuoteFree(u);
    }
  }

  /**
   * Where a field holds a quote, its escaped form inside the row is the text
   * before the first quote, a doubled quote, and the escaped rest.
   */
  lemma EscapedSplit(line: string, q: nat, c: nat, s: string) returns (u: string, w: string)
    requires '"' in s && q < c <= |line| && line[q + 1..c] == Escape(s)
    ensures s == u + "\"" + w && '"' !in u
    ensures q + |u| + 2 < c
    ensures line[q + 1..q + 1 + |u|] == u
    ensures line[q + 1 + |u|] == '"' && line[q + 2 + |u|] == '"'
    ensures line[q + 3 + |u|..c] == Escape(w)
  {
    u, w := QuoteSplit(s);
    DoubledQuoteAt(line, q, c, u, Escape(w));
  }

  /** Where the pieces of a slice `u + "\"\"" + r` of the row lie. */
  lemma DoubledQuoteAt(line: string, q: nat, c: nat, u: string, r: string)
    requires q < c <= |line| && line[q + 1..c] == u + "\"\"" + r
    ensures q + |u| + 2 < c
    ensures line[q + 1..q + 1 + |u|] == u
    ensures line[q + 1 + |u|] == '"' && line[q + 2 + |u|] == '"'
    ensures line[q + 3 + |u|..c] == r
  {
    var d := q + 1 + |u|;
    SliceSplit(line, q + 1, c, u, "\"\"" + r);
    SliceSplit(line, d, c, "\"\"", r);
    assert line[d] == line[d..c][0];
    assert line[d + 1] == line[d..c][1];
  }

  /** A run without quotes, then a doubled quote: the scan goes on after it. */
  lemma ScanQuotedDoubled(line: string, q: nat, u: string)
    requires q + |u| + 2 < |line| && '"' !in u
    requires line[q + 1..q + 1 + |u|] == u
    requires line[q + 1 + |u|] == '"' && line[q + 2 + |u|] == '"'
    ensures var after := ScanQuoted(line, q + |u| + 2);
      ScanQuoted(line, q) == (u + "\"" + after.0, after.1)
  {
    QuoteFreeRun(line, q + 1, u);
    ScanQuotedStepDoubled(line, q, q + 1 + |u|);
  }

  /** The index of the first quote in `s`. */
  lemma FirstQuote(s: string) returns (k: nat)
    requires '"' in s
    ensures k < |s| && s[k] == '"' && '"' !in s[..k]
  {
    k := 0;
    while s[k] != '"'
      invariant k < |s| && '"' in s[k..] && '"' !in s[..k]
      decreases |s| - k
    {
      assert s[k..] == [s[k]] + s[k + 1..];
      assert s[..k + 1] == s[..k] + [s[k]];
      k := k + 1;
    }
  }

  /** A cursor on a quote reads a quoted field. */
  lemma ReadFieldQuoted(line: string, p: nat)
    requires p < |line| && line[p] == '"'
    ensures ReadField(line, At(p)) == (Some(ScanQuoted(line, p).0), ScanQuoted(line, p).1)
  {
  }

  /** One quoted field, followed by the end of the line or by a comma. */
  lemma ReadQuotedField(pre: string, f: string, t: string)
    requires t == [] || t[0] == ','
    ensures var line := pre + Quote(f) + t;
      ReadField(line, At(|pre|)) == (Some(f), if t == [] then Done else At(|line| - |t| + 1))
  {
    var e := Escape(f);
    var line := pre + Quote(f) + t;
    assert line == pre + "\"" + e + "\"" + t by {
      Append4(pre, "\"", e, "\"", t);
    }
    assert line[|pre|] == '"' by {
      QuotedTextAt(pre, e, t);
      assert line[|pre|] == line[|pre|..][0];
    }
    ScanQuotedEscaped(pre, f, t);
    ReadFieldQuoted(line, |pre|);
  }

  lemma Append4(a: string, b: string, c: string, d: string, e: string)
    ensures a + (b + c + d) + e == a + b + c + d + e
  {
  }

  /** One field without quotes or commas, followed by the end of the line or by a comma. */
  lemma ReadPlainField(pre: string, f: string, t: string)
    requires '"' !in f && ',' !in f && (t == [] || t[0] == ',')
    ensures var line := pre + f + t;
      ReadField(line, At(|pre|)) == (Some(f), if t == [] then Done else At(|line| - |t| + 1))
  {
    var line := pre + f + t;
    var e := |pre| + |f|;
    assert line[|pre|..e] == f;
    forall j | |pre| <= j < e ensures line[j] != ',' && line[j] != '"' {
      assert line[j] == f[j - |pre|];
    }
    if t == [] {
      assert line[|pre|..] == f;
      ReadFieldLast(line, |pre|);
    } else {
      assert line[e] == t[0];
      FindFirst(line, |pre|, ',', e);
      ReadFieldComma(line, |pre|, e);
    }
  }

  /** One encoded field, followed by the end of the line or by a comma. */
  lemma ReadEncodedField(pre: string, f: string, t: string)
    requires t == [] || t[0] == ','
    ensures var line := pre + EncodeField(f) + t;
      ReadField(line, At(|pre|)) == (Some(f), if t == [] then Done else At(|line| - |t| + 1))
  {
    if '"' in f || ',' in f {
      ReadQuotedField(pre, f, t);
    } else {
      ReadPlainField(pre, f, t);
    }
  }

  lemma {:induction false} EncodedFieldsFrom(pre: string, fs: seq<string>)
    requires |fs| >= 1
    ensures FieldsFrom(pre + EncodeRow(fs), At(|pre|)) == fs
    decreases |fs|
  {
    if |fs| == 1 {
      EncodedLastField(pre, fs);
    } else {
      var pre' := EncodedFirstField(pre, fs);
      EncodedFieldsFrom(pre', fs[1..]);
      assert fs == [fs[0]] + fs[1..];
    }
  }

  lemma AppendAssoc(a: string, b: string, c: string, d: string)
    ensures a + (b + c + d) == a + b + c + d == a + b + (c + d)
  {
  }

  /** The last field of an encoded row. */
  lemma EncodedLastField(pre: string, fs: seq<string>)
    requires |fs| == 1
    ensures FieldsFrom(pre + EncodeRow(fs), At(|pre|)) == fs
  {
    var line := pre + EncodeRow(fs);
    assert ReadField(line, At(|pre|)) == (Some(fs[0]), Done) by {
      assert line == pre + EncodeField(fs[0]) + "";
      ReadEncodedField(pre, fs[0], "");
    }
    FieldsFromStep(line, |pre|, fs[0], Done);
  }

  /** A field of an encoded row that is followed by more: the cursor lands on the next one. */
  lemma EncodedFirstField(pre: string, fs: seq<string>) returns (pre': string)
    requires |fs| > 1
    ensures pre + EncodeRow(fs) == pre' + EncodeRow(fs[1..])
    ensures FieldsFrom(pre + EncodeRow(fs), At(|pre|)) == [fs[0]] + FieldsFrom(pre' + EncodeRow(fs[1..]), At(|pre'|))
  {
    var ef, rest := EncodeField(fs[0]), EncodeRow(fs[1..]);
    var line := pre + EncodeRow(fs);
    pre' := pre + ef + ",";
    assert EncodeRow(fs) == ef + "," + rest;
    assert line == pre' + rest && line == pre + ef + ("," + rest) by {
      AppendAssoc(pre, ef, ",", rest);
    }
    assert ReadField(line, At(|pre|)) == (Some(fs[0]), At(|pre'|)) by {
      ReadEncodedField(pre, fs[0], "," + rest);
    }
    FieldsFromStep(line, |pre|, fs[0], At(|pre'|));
  }

  /**
   * Tokenizing a row written as an RFC 4180 writer writes it gives the fields
   * back, whether they were quoted (doubled quotes and all) or not.
   */
  lemma EncodedRowRoundTrip(fs: seq<string>)
    requires |fs| >= 1
    ensures Fields(EncodeRow(fs)) == fs
  {
    EncodedFieldsFrom("", fs);
    assert "" + EncodeRow(fs) == EncodeRow(fs);
  }

  // ---------------------------------------------------------------------
  // Malformed quoting degrades to taking the rest of the line
  // ---------------------------------------------------------------------

  /** An unterminated quoted field takes the rest of the line and ends the row. */
  lemma UnterminatedQuote(pre: string, u: string)
    requires '"' !in u
    ensures ReadField(pre + "\"" + u, At(|pre|)) == (Some(u), Done)
  {
    var line := pre + "\"" + u;
    forall j | |pre| + 1 <= j < |line| ensures line[j] != '"' {
      assert line[j] == u[j - |pre| - 1];
    }
    assert line[|pre| + 1..] == u;
  }

  /**
   * A closing quote followed by anything but a comma, a quote or the end of
   * the line: the field is the quoted text followed verbatim by the rest of
   * the line, and the row ends.
   */
  lemma StrayAfterClosingQuote(pre: string, u: string, c: char, w: string)
    requires '"' !in u && c != ',' && c != '"'
    ensures ReadField(pre + "\"" + u + "\"" + ([c] + w), At(|pre|)) == (Some(u + ([c] + w)), Done)
  {
    var line := pre + "\"" + u + "\"" + ([c] + w);
    var e := |pre| + 1 + |u|;
    QuotedTextAt(pre, u, [c] + w);
    assert line[|pre|] == '"' by {
      assert line == pre + ("\"" + u + "\"" + ([c] + w));
    }
    assert line[e + 1] == c by {
      assert line[e + 1] == line[e + 1..][0];
    }
    StrayAt(line, |pre|, e, u);
  }

  /** The same, stated on the positions of the quotes inside the row. */
  lemma StrayAt(line: string, q: nat, e: nat, u: string)
    requires q < e && e + 1 < |line| && line[q] == '"' && line[q + 1..e] == u && '"' !in u
    requires line[e] == '"' && line[e + 1] != '"' && line[e + 1] != ','
    ensures ReadField(line, At(q)) == (Some(u + line[e + 1..]), Done)
  {
    QuoteFreeRun(line, q + 1, u);
    ScanQuotedStepStray(line, q, e);
    ReadFieldQuoted(line, q);
  }

  /** One step of the quoted scan that meets a closing quote followed by a stray character. */
  lemma ScanQuotedStepStray(line: string, q: nat, e: nat)
    requires q < e && e + 1 < |line| && Find(line, q + 1, '"') == Some(e)
    requires line[e + 1] != '"' && line[e + 1] != ','
    ensures ScanQuoted(line, q) == (line[q + 1..e] + line[e + 1..], Done)
  {
  }

  // ---------------------------------------------------------------------
  // csv.c:32 as written
  // ---------------------------------------------------------------------

  /** What `csv_read` as written does: it returns NULL, returns a field, or reaches undefined behaviour. */
  datatype AsWritten = Undefined | Null | Returned(field: string, slots: seq<Cursor>)

  /**
   * `csv_read` exactly as written. The statement `++buf` at csv.c:32 steps
   * the pointer to the caller's cursor instead of the cursor, so the quoted
   * branch reads and writes the pointer-sized slots that follow the caller's
   * variable in memory. `slots[0]` is the caller's cursor; `slots[k]` for
   * `k >= 1` stand for the memory after it, modelled as further cursors into
   * the same line. Stepping past the modelled slots, or `strchr` on a NULL
   * or out-of-line slot, is undefined behaviour. A NULL cursor gives NULL,
   * as in ReadField; off the quoted branch the two agree on the field and
   * on where the caller's cursor goes.
   */
  function ReadFieldAsWritten(line: string, slots: seq<Cursor>): (r: AsWritten)
    requires |slots| >= 1 && ValidCursor(line, slots[0])
    ensures r.Null? <==> ReadField(line, slots[0]).0.None?
    ensures var (f, next) := ReadField(line, slots[0]);
      f.Some? && !(slots[0].pos < |line| && line[slots[0].pos] == '"') ==>
        r.Returned? && Some(r.field) == f && r.slots == slots[0 := next]
  {
    match slots[0]
    case Done => Null
    case At(p) =>
      if p < |line| && line[p] == '"' then QuotedAsWritten(line, slots, 1, "")
      else
        var (f, next) := ReadField(line, slots[0]);
        Returned(f.value, slots[0 := next])
  }

  /** The as-written quoted loop from slot `k`: it never yields NULL, and it leaves every slot before `k` alone. */
  function QuotedAsWritten(line: string, slots: seq<Cursor>, k: nat, acc: string): (r: AsWritten)
    requires k >= 1
    ensures !r.Null?
    ensures r.Returned? ==> |r.slots| == |slots| && forall j :: 0 <= j < k && j < |slots| ==> r.slots[j] == slots[j]
    decreases |slots| - k
  {
    if k >= |slots| || slots[k].Done? || slots[k].pos > |line| then Undefined
    else
      var pos := slots[k].pos;
      match Find(line, pos, '"')
      case None => Returned(acc + line[pos..], slots[k := Done])
      case Some(e) =>
        var acc' := acc + line[pos..e];
        if e + 1 == |line| then Returned(acc', slots[k := Done])
        else if line[e + 1] == '"' then QuotedAsWritten(line, slots[k := At(e + 1)], k + 1, acc' + "\"")
        else if line[e + 1] == ',' then Returned(acc', slots[k := At(e + 2)])
        else Returned(acc' + line[e + 1..], slots[k := Done])
  }

  /**
   * As written, a quoted field never moves the caller's cursor, so the
   * caller reads the same quoted field again on every call and its row never
   * ends; ReadField, which advances `*buf`, always moves forward or ends.
   */
  lemma QuotedFieldLeavesCallerCursor(line: string, slots: seq<Cursor>)
    requires |slots| >= 1 && slots[0].At? && slots[0].pos < |line| && line[slots[0].pos] == '"'
    ensures var r := ReadFieldAsWritten(line, slots);
      r.Returned? ==> |r.slots| == |slots| && r.slots[0] == slots[0]
    ensures var next := ReadField(line, slots[0]).1;
      next.Done? || next.pos > slots[0].pos
  {
  }

  /**
   * A concrete case: the line `"x"` with the slot after the caller's cursor
   * holding the same pointer. As written, the field is `x"` and the caller's
   * cursor still points at the opening quote; as intended, the field is `x`
   * and the row has ended.
   */
  lemma QuotedFieldCounterexample()
    ensures ReadFieldAsWritten("\"x\"", [At(0), At(0)]) == Returned("x\"", [At(0), Done])
    ensures ReadField("\"x\"", At(0)) == (Some("x"), Done)
  {
    var line := "\"x\"";
    assert Find(line, 0, '"') == Some(0);
    assert Find(line, 1, '"') == Some(2);
    assert line[0..0] == "" && line[1..] == "x\"" && line[1..2] == "x";
  }
}
