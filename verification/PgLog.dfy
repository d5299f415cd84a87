/** The PostgreSQL backend's `readLog`: the query it sends and when it reports rows (pglog.cpp). */
module PgLog {
  import opened Bytes
  import opened Keys
  import opened Seqs
  import opened Rows
  import opened LogStore
  import opened DbLog
  import opened MacText
  import opened Callbacks
  import JsonReader

  const ERRCODE_DATABASE_STATEMENT_FAIL := -81

  /** `ExecStatusType` of libpq: a query that returns rows succeeds with TuplesOk. */
  datatype Status = CommandOk | TuplesOk | FatalError

  // ---- LIKE ------------------------------------------------------------------------------

  /** SQL LIKE: `%` stands for any text, `_` for any character, `\\` makes the next one literal. */
  predicate Like(s: string, pattern: string)
    decreases |s| + |pattern|
  {
    if pattern == "" then s == ""
    else if pattern[0] == '%' then Like(s, pattern[1..]) || (s != "" && Like(s[1..], pattern))
    else if pattern[0] == '_' then s != "" && Like(s[1..], pattern[1..])
    else if pattern[0] == '\\' && |pattern| > 1 then s != "" && s[0] == pattern[1] && Like(s[1..], pattern[2..])
    else s != "" && s[0] == pattern[0] && Like(s[1..], pattern[1..])
  }

  predicate Plain(text: string) {
    forall i :: 0 <= i < |text| ==> text[i] != '%' && text[i] != '_' && text[i] != '\\'
  }

  lemma {:induction false} LikeAnything(s: string)
    ensures Like(s, "%")
  {
    if s != "" {
      LikeAnything(s[1..]);
    }
    assert "%"[1..] == "";
  }

  /** A plain text followed by `%` selects its extensions; alone it selects itself. */
  lemma {:induction false} LikePlain(s: string, text: string)
    requires Plain(text)
    ensures Like(s, text + "%") <==> text <= s
    ensures Like(s, text) <==> text == s
  {
    if text == "" {
      assert "" + "%" == "%";
      LikeAnything(s);
    } else {
      var pattern := text + "%";
      assert pattern[1..] == text[1..] + "%" && pattern[0] == text[0];
      assert text == [text[0]] + text[1..];
      if s != "" {
        assert s == [s[0]] + s[1..];
        LikePlain(s[1..], text[1..]);
      }
    }
  }

  lemma {:induction false} PrefixTextPlain(p: seq<Byte>)
    ensures Plain(PrefixText(p))
  {
    if p != [] {
      DigitPlain(p[0] / 16);
      DigitPlain(p[0] % 16);
      PrefixTextPlain(p[1..]);
      assert Hex2(p[0]) == [HEX_DIGITS[p[0] / 16], HEX_DIGITS[p[0] % 16]];
    }
  }

  lemma DigitPlain(n: nat)
    requires n < 16
    ensures HEX_DIGITS[n] != '%' && HEX_DIGITS[n] != '_' && HEX_DIGITS[n] != '\\'
  {
    DigitValue(n);
  }

  // ---- The query -------------------------------------------------------------------------

  /** The pattern of a prefix: open for less than six bytes, the whole text for six. */
  function Pattern(p: Prefix): string {
    PrefixText(p) + if |p| < 6 then "%" else ""
  }

  function QueryText(pattern: string, lo: Time, hi: Time): string {
    "SELECT sa, dt, device_id, ssi_signal FROM loc WHERE sa LIKE '" + pattern + "'"
    + " AND dt <= " + Dec(hi) + " AND dt >= " + Dec(lo)
  }

  /** What the WHERE clause selects, of the table's MAC text and time. */
  predicate Selects(pattern: string, lo: Time, hi: Time, sa: string, dt: Time) {
    Like(sa, pattern) && dt <= hi && dt >= lo
  }

  /** The pattern selects the MACs that have the prefix. */
  lemma {:induction false} PatternSelects(p: Prefix, m: Mac)
    ensures Like(MacToStr(m), Pattern(p)) <==> p <= m
  {
    PrintersAgree(m);
    PrefixTextPlain(p);
    LikePlain(MacToStr(m), PrefixText(p));
    TextPrefix(p, m);
    if |p| == 6 {
      assert PrefixText(p) + "" == PrefixText(p);
      assert |PrefixText(p)| == |PrefixText(m)|;
      assert PrefixText(p) <= PrefixText(m) <==> PrefixText(p) == PrefixText(m);
    }
  }

  /**
    The two backends filter alike: for the records the stores have in common, the query selects
    a record exactly when the filter of the other backend wants it, for any order of the ends.
   */
  lemma {:induction false} BackendsAgree(p: Prefix, start: Time, finish: Time, m: Mac, dt: Time, d: LogData)
    ensures var q := QueryOf(p, start, finish);
            Selects(Pattern(p), q.lo, q.hi, MacToStr(m), dt) <==> Wanted(q, LogRow(m, dt, d))
  {
    PatternSelects(p, m);
    LogKeyRoundTrip(m, dt);
    var k := LogKey(m, dt);
    assert k[1..7] == m;
    assert k[1..1 + |p|] == m[..|p|];
  }

  /**
    So the rows that `readLog` of dblog.cpp reports are those that the WHERE clause selects, given what
    `Guards.ReadGuard` asks; `ReadLog` below is about what becomes of the selected rows.
   */
  lemma {:induction false} ScanSelectsTheSame(rows: seq<Row>, p: Prefix, start: Time, finish: Time, m: Mac, dt: Time, d: LogData)
    requires WellFormed(rows) && (|p| < 6 || start <= Finish(finish))
    ensures var q := QueryOf(p, start, finish);
            LogRow(m, dt, d) in ReadRows(rows, p, start, finish)
            <==> LogRow(m, dt, d) in rows && Selects(Pattern(p), q.lo, q.hi, MacToStr(m), dt)
  {
    BackendsAgree(p, start, finish, m, dt, d);
    ReadIsExact(rows, p, start, finish);
    hide ReadRows, Selects, Pattern, QueryOf;
  }

  // ---- The statement, read back ---------------------------------------------------------------

  /** The words of a text. */
  function Words(s: string): seq<string>
    decreases |s|
  {
    var n := JsonReader.UpTo(s, " ");
    if n == |s| then [s] else [s[..n]] + Words(s[n + 1..])
  }

  /** Words with a space between them. */
  function Spaced(words: seq<string>): string {
    if words == [] then "" else if |words| == 1 then words[0] else words[0] + (" " + Spaced(words[1..]))
  }

  lemma {:induction false} WordsSpaced(words: seq<string>)
    requires words != [] && forall w :: w in words ==> ' ' !in w
    ensures Words(Spaced(words)) == words
  {
    hide Words;
    var w := words[0];
    assert w in words;
    if |words| == 1 {
      OneWord(w);
    } else {
      FirstWord(w, Spaced(words[1..]));
      WordsSpaced(words[1..]);
      assert words == [w] + words[1..];
    }
  }

  lemma FirstWord(w: string, rest: string)
    requires ' ' !in w
    ensures Words(w + (" " + rest)) == [w] + Words(rest)
  {
    JsonReader.UpToIs(w, " " + rest, " ");
    JsonReader.Parts(w, " " + rest);
    var s := w + (" " + rest);
    assert s[|w| + 1..] == rest;
    assert JsonReader.UpTo(s, " ") == |w| < |s|;
  }

  lemma OneWord(w: string)
    requires ' ' !in w
    ensures Words(w) == [w]
  {
    assert JsonReader.UpTo(w, " ") == |w|;
    assert w[..|w|] == w;
  }

  /** One condition of a WHERE clause, for a row with this MAC text and time. */
  predicate Condition(column: string, op: string, arg: string, sa: string, dt: Time) {
    || (column == "sa" && op == "LIKE" && |arg| >= 2 && arg[0] == '\'' && arg[|arg| - 1] == '\''
        && Like(sa, arg[1..|arg| - 1]))
    || (column == "dt" && op == "<=" && JsonReader.ReadInt(arg).Some? && dt <= JsonReader.ReadInt(arg).value)
    || (column == "dt" && op == ">=" && JsonReader.ReadInt(arg).Some? && dt >= JsonReader.ReadInt(arg).value)
  }

  /** The conditions of a WHERE clause, all of them. */
  predicate Where(words: seq<string>, sa: string, dt: Time)
    decreases |words|
  {
    && |words| >= 3 && Condition(words[0], words[1], words[2], sa, dt)
    && (|words| == 3 || (words[3] == "AND" && Where(words[4..], sa, dt)))
  }

  lemma {:induction false} SpacedEnd(words: seq<string>, w: string)
    requires words != []
    ensures Spaced(words + [w]) == Spaced(words) + (" " + w)
  {
    var all := words + [w];
    if |words| == 1 {
      assert all[1..] == [w];
    } else {
      assert all[1..] == words[1..] + [w];
      SpacedEnd(words[1..], w);
    }
  }

  const SELECTED := ["SELECT", "sa,", "dt,", "device_id,", "ssi_signal", "FROM", "loc", "WHERE"]

  function Conditions(pattern: string, lo: Time, hi: Time): seq<string> {
    ["sa", "LIKE", "'" + pattern + "'", "AND", "dt", "<=", Dec(hi), "AND", "dt", ">=", Dec(lo)]
  }

  lemma FourMore(words: seq<string>, op: string, n: string)
    requires words != []
    ensures Spaced(words + ["AND", "dt", op, n]) == Spaced(words) + " AND dt " + op + (" " + n)
  {
    hide Spaced;
    var all := words + ["AND", "dt", op, n];
    SpacedEnd(words, "AND");
    SpacedEnd(words + ["AND"], "dt");
    SpacedEnd(words + ["AND"] + ["dt"], op);
    SpacedEnd(words + ["AND"] + ["dt"] + [op], n);
    assert words + ["AND"] + ["dt"] + [op] + [n] == all;
    AndDt(Spaced(words), op);
  }

  lemma AndDt(s: string, op: string)
    ensures s + (" " + "AND") + (" " + "dt") + (" " + op) == s + " AND dt " + op
  {
    assert " " + "AND" + " " + "dt" + " " == " AND dt ";
    assert s + (" " + "AND") + (" " + "dt") + (" " + op) == s + (" " + "AND" + " " + "dt" + " ") + op;
  }

  lemma Opening(pattern: string)
    ensures Spaced(SELECTED + ["sa", "LIKE", "'" + pattern + "'"])
            == "SELECT sa, dt, device_id, ssi_signal FROM loc WHERE sa LIKE '" + pattern + "'"
  {
    hide Spaced;
    var q := "'" + pattern + "'";
    SpacedEnd(SELECTED + ["sa", "LIKE"], q);
    assert SELECTED + ["sa", "LIKE"] + [q] == SELECTED + ["sa", "LIKE", q];
    FixedWords();
    var fixed := "SELECT sa, dt, device_id, ssi_signal FROM loc WHERE sa LIKE";
    Quoted(fixed, pattern);
    assert fixed + " '" == "SELECT sa, dt, device_id, ssi_signal FROM loc WHERE sa LIKE '";
  }

  lemma Quoted(s: string, pattern: string)
    ensures s + (" " + ("'" + pattern + "'")) == (s + " '") + pattern + "'"
  {
  }

  lemma FixedWords()
    ensures Spaced(SELECTED + ["sa", "LIKE"]) == "SELECT sa, dt, device_id, ssi_signal FROM loc WHERE sa LIKE"
  {
    hide Spaced;
    SpacedEnd(SELECTED + ["sa"], "LIKE");
    SpacedEnd(SELECTED, "sa");
    assert SELECTED + ["sa"] + ["LIKE"] == SELECTED + ["sa", "LIKE"];
    var three := ["SELECT", "sa,", "dt,"];
    var five := three + ["device_id,"] + ["ssi_signal"];
    FirstThree();
    SpacedEnd(three, "device_id,");
    SpacedEnd(three + ["device_id,"], "ssi_signal");
    assert Spaced(five) == "SELECT sa, dt, device_id, ssi_signal";
    SpacedEnd(five, "FROM");
    SpacedEnd(five + ["FROM"], "loc");
    SpacedEnd(five + ["FROM"] + ["loc"], "WHERE");
    assert SELECTED == five + ["FROM"] + ["loc"] + ["WHERE"];
    assert Spaced(SELECTED) == "SELECT sa, dt, device_id, ssi_signal FROM loc WHERE";
  }

  lemma FirstThree()
    ensures Spaced(["SELECT", "sa,", "dt,"]) == "SELECT sa, dt,"
  {
    hide Spaced;
    assert ["SELECT"] + ["sa,"] + ["dt,"] == ["SELECT", "sa,", "dt,"];
    SpacedEnd(["SELECT"], "sa,");
    SpacedEnd(["SELECT"] + ["sa,"], "dt,");
    OneSpaced("SELECT");
  }

  lemma OneSpaced(w: string)
    ensures Spaced([w]) == w
  {
  }

  lemma Bound(s: string, n: string)
    ensures s + " AND dt " + "<=" + (" " + n) == s + " AND dt <= " + n
    ensures s + " AND dt " + ">=" + (" " + n) == s + " AND dt >= " + n
  {
    assert " AND dt " + "<=" + " " == " AND dt <= ";
    assert " AND dt " + ">=" + " " == " AND dt >= ";
    assert s + " AND dt " + "<=" + (" " + n) == s + (" AND dt " + "<=" + " ") + n;
    assert s + " AND dt " + ">=" + (" " + n) == s + (" AND dt " + ">=" + " ") + n;
  }

  lemma QueryTextWords(pattern: string, lo: Time, hi: Time)
    ensures QueryText(pattern, lo, hi) == Spaced(SELECTED + Conditions(pattern, lo, hi))
  {
    hide Dec, Spaced;
    var q, h, l := "'" + pattern + "'", Dec(hi), Dec(lo);
    var opening := SELECTED + ["sa", "LIKE", q];
    Opening(pattern);
    FourMore(opening, "<=", h);
    Bound(Spaced(opening), h);
    var more := opening + ["AND", "dt", "<=", h];
    FourMore(more, ">=", l);
    Bound(Spaced(more), l);
    assert more + ["AND", "dt", ">=", l] == SELECTED + Conditions(pattern, lo, hi);
  }

  /**
    The statement, read as SQL, selects the four columns of the rows whose MAC text is like the pattern and whose
    time lies in the range.
   */
  lemma {:induction false} StatementSelects(p: Prefix, lo: Time, hi: Time, sa: string, dt: Time)
    ensures var words := Words(QueryText(Pattern(p), lo, hi));
            && |words| >= 8 && words[..8] == SELECTED
            && (Where(words[8..], sa, dt) <==> Selects(Pattern(p), lo, hi, sa, dt))
  {
    hide QueryText, Words, Spaced, Dec, Pattern, Like, Where;
    QueryTextWords(Pattern(p), lo, hi);
    NoSpaces(p, lo, hi);
    WordsSpaced(SELECTED + Conditions(Pattern(p), lo, hi));
    WhereMeans(Pattern(p), lo, hi, sa, dt);
  }

  lemma NoSpaces(p: Prefix, lo: Time, hi: Time)
    ensures forall w :: w in SELECTED + Conditions(Pattern(p), lo, hi) ==> ' ' !in w
  {
    hide Dec, PrefixText;
    JsonReader.DecRoundTrip(lo);
    JsonReader.DecRoundTrip(hi);
    PrefixHasNoSpace(p);
  }

  lemma {:induction false} PrefixHasNoSpace(p: seq<Byte>)
    ensures ' ' !in PrefixText(p)
  {
    if p != [] {
      DigitValue(p[0] / 16);
      DigitValue(p[0] % 16);
      PrefixHasNoSpace(p[1..]);
      assert Hex2(p[0]) == [HEX_DIGITS[p[0] / 16], HEX_DIGITS[p[0] % 16]];
    }
  }

  lemma WhereMeans(pattern: string, lo: Time, hi: Time, sa: string, dt: Time)
    ensures Where(Conditions(pattern, lo, hi), sa, dt) <==> Selects(pattern, lo, hi, sa, dt)
  {
    hide Dec, Like;
    JsonReader.DecRoundTrip(lo);
    JsonReader.DecRoundTrip(hi);
    hide JsonReader.ReadInt;
    var w, arg := Conditions(pattern, lo, hi), "'" + pattern + "'";
    assert arg[1..|arg| - 1] == pattern;
    assert w[4..][..4] == ["dt", "<=", Dec(hi), "AND"] && w[4..][4..] == ["dt", ">=", Dec(lo)];
    assert Condition("sa", "LIKE", arg, sa, dt) <==> Like(sa, pattern);
    assert Where(w[4..][4..], sa, dt) <==> dt >= lo;
    assert Where(w[4..], sa, dt) <==> dt <= hi && dt >= lo;
  }

  // ---- The call --------------------------------------------------------------------------

  /** A row of the answer, as texts and numbers. */
  datatype PgRow = PgRow(sa: string, dt: Time, deviceId: DeviceId, ssiSignal: Signal)

  function RowReport(r: PgRow): Report {
    Report(ScanMac(r.sa), r.dt, Some(LogData(r.deviceId, r.ssiSignal)))
  }

  /** A row with the text of a MAC is reported with that MAC, its time, its device and its signal. */
  lemma {:induction false} RowReported(m: Mac, dt: Time, deviceId: DeviceId, ssiSignal: Signal)
    ensures RowReport(PgRow(MacToStr(m), dt, deviceId, ssiSignal)) == Report(m, dt, Some(LogData(deviceId, ssiSignal)))
  {
    hide MacToStr, PrefixText, Scan;
    PrintersAgree(m);
    TextRoundTrip(m);
    assert m + Zeros(0) == m;
  }

  function RowReports(rows: seq<PgRow>): seq<Report> {
    Map(RowReport, rows)
  }

  /** `dbenv`: the connection and the statements sent over it. */
  class PgEnv {
    var connected: bool
    var sent: seq<string>

    constructor ()
      ensures connected && sent == []
    {
      connected, sent := true, [];
    }

    method Exec(statement: string)
      requires connected
      modifies this`sent
      ensures sent == old(sent) + [statement]
    {
      sent := sent + [statement];
    }

    /** `PQfinish` */
    method Finish()
      modifies this`connected
      ensures !connected
    {
      connected := false;
    }
  }

  /** The operand of LIKE in the query. */
  method BuildPattern(sa: Option<Mac>, saSize: int) returns (pattern: string)
    requires saSize <= 6 && (sa.None? ==> saSize <= 0)
    ensures pattern == Pattern(PrefixOf(sa, saSize))
  {
    hide PrefixText;
    var text := MacToStr2(if sa.Some? then sa.value else [], saSize);
    pattern := text + if saSize < 6 then "%" else "";
  }

  /** The SELECT statement, with the ends of the range in order. */
  method SendQuery(env: PgEnv, sa: Option<Mac>, saSize: int, start: Time, finish: Time)
    requires env.connected && saSize <= 6 && (sa.None? ==> saSize <= 0)
    modifies env`sent
    ensures env.sent == old(env.sent) + [QueryOfCall(sa, saSize, start, finish)]
  {
    hide QueryText, Pattern;
    var lo, hi := InOrder(PrefixOf(sa, saSize), start, finish);
    var pattern := BuildPattern(sa, saSize);
    env.Exec(QueryText(pattern, lo, hi));
  }

  /** The statement for a filter: the pattern of its prefix and its range. */
  function QueryOfCall(sa: Option<Mac>, saSize: int, start: Time, finish: Time): string {
    var q := QueryOf(PrefixOf(sa, saSize), start, finish);
    QueryText(Pattern(q.prefix), q.lo, q.hi)
  }

  /**
    Reads log records over SQL.  Every statement's status must be CommandOk, the query's too: as
    a successful query answers TuplesOk, the call then ends with an error and a closed connection
    and reports nothing.
   */
  method ReadLog(env: PgEnv, sa: Option<Mac>, saSize: int, start: Time, finish: Time, onLog: OnLog,
                 begun: Status, selected: Status, answer: seq<PgRow>, ended: Status)
    returns (r: int)
    requires env.connected && saSize <= 6 && (sa.None? ==> saSize <= 0)
    requires onLog.Valid() && env !in onLog.Footprint()
    modifies env, onLog.Footprint()
    ensures onLog.Valid()
    ensures onLog.NoCallback? ==> r == ERRCODE_WRONG_PARAM && env.sent == old(env.sent)
    ensures !onLog.NoCallback? && begun == CommandOk ==>
              old(env.sent) + ["BEGIN", QueryOfCall(sa, saSize, start, finish)] <= env.sent
    ensures selected != CommandOk ==>
              && onLog.State() == old(onLog.State())
              && (!onLog.NoCallback? ==> r == ERRCODE_DATABASE_STATEMENT_FAIL && !env.connected)
    ensures !onLog.NoCallback? && begun == selected == CommandOk ==>
              onLog.State() == Feed(old(onLog.State()), RowReports(answer)).view
    ensures !onLog.NoCallback? ==> (r == 0 <==> begun == selected == ended == CommandOk)
  {
    hide Feed, Step, ValidView, OnLog.State, QueryOfCall, RowReports;
    if onLog.NoCallback? {
      return ERRCODE_WRONG_PARAM;
    }
    env.Exec("BEGIN");
    if begun != CommandOk {
      env.Finish();
      return ERRCODE_DATABASE_STATEMENT_FAIL;
    }
    SendQuery(env, sa, saSize, start, finish);
    if selected != CommandOk {
      env.Finish();
      return ERRCODE_DATABASE_STATEMENT_FAIL;
    }
    RowLoop(answer, onLog);
    env.Exec("END");
    if ended != CommandOk {
      env.Finish();
      return ERRCODE_DATABASE_STATEMENT_FAIL;
    }
    r := 0;
  }

  /** The loop over the rows of the answer. */
  method RowLoop(answer: seq<PgRow>, onLog: OnLog)
    requires !onLog.NoCallback? && onLog.Valid()
    modifies onLog.Footprint()
    ensures onLog.Valid()
    ensures onLog.State() == Feed(old(onLog.State()), RowReports(answer)).view
  {
    hide Feed, Step, ValidView, OnLog.State, RowReport, ScanMac, ScanCount, Parsed;
    ghost var v := onLog.State();
    RowsFed(v, answer, 0);
    var i := 0;
    while i < |answer|
      invariant 0 <= i <= |answer| && onLog.Valid()
      invariant Feed(v, RowReports(answer[..i])) == Fed(onLog.State(), false)
    {
      RowsFed(v, answer, i);
      var sa := new Byte[6];
      var read := StrToMacAddress(sa, answer[i].sa);
      var rep := Report(sa[..], answer[i].dt, Some(LogData(answer[i].deviceId, answer[i].ssiSignal)));
      assert rep == RowReport(answer[i]) by { RowReportOf(answer[i]); }
      var stop := onLog.Call(rep);
      if stop {
        return;
      }
      i := i + 1;
    }
    assert answer[..i] == answer;
  }

  lemma RowReportOf(r: PgRow)
    ensures RowReport(r) == Report(ScanMac(r.sa), r.dt, Some(LogData(r.deviceId, r.ssiSignal)))
  {
  }

  lemma RowsFed(v: View, answer: seq<PgRow>, i: nat)
    requires ValidView(v) && i <= |answer|
    ensures Feed(v, RowReports(answer[..0])) == Fed(v, false)
    ensures i < |answer| ==>
              var f := Feed(v, RowReports(answer[..i]));
              && Feed(v, RowReports(answer[..i + 1])) == (if f.stopped then f else Step(f.view, RowReport(answer[i])))
              && (Feed(v, RowReports(answer[..i + 1])).stopped ==>
                    Feed(v, RowReports(answer)) == Feed(v, RowReports(answer[..i + 1])))
  {
    FeedEmpty(v, RowReports(answer[..0]));
    hide Step, RowReport, Feed, RowReports;
    if i < |answer| {
      RowReportsNext(answer, i);
      FeedNext(v, RowReports(answer[..i]), RowReport(answer[i]));
      FeedAppend(v, RowReports(answer[..i + 1]), RowReports(answer[i + 1..]));
    }
  }

  lemma RowReportsNext(answer: seq<PgRow>, i: nat)
    requires i < |answer|
    ensures RowReports(answer[..i + 1]) == RowReports(answer[..i]) + [RowReport(answer[i])]
    ensures RowReports(answer) == RowReports(answer[..i + 1]) + RowReports(answer[i + 1..])
  {
    hide RowReport;
    assert answer == answer[..i + 1] + answer[i + 1..];
    MapAppend(RowReport, answer[..i + 1], answer[i + 1..]);
  }

  lemma FeedEmpty(v: View, rs: seq<Report>)
    requires ValidView(v) && rs == []
    ensures Feed(v, rs) == Fed(v, false)
  {
  }
}
