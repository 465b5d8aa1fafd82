/**
 * `HistoryService`: the practice history kept in browser storage, the
 * append of one finished session and the lenient CSV import.
 *
 * Storage is a value: what `localStorage.getItem` and `JSON.parse` made of
 * the stored text. Writing the history back is the `Saved` value the
 * operations return. `crypto.randomUUID` is a parameter `mint` that names
 * the `j`-th session an import creates.
 */
module HistoryService {
  import opened Util
  import opened Text
  import opened Types

  /** The stored history as `getHistory` finds it. */
  datatype Stored =
    | Missing                            // no item, or the empty string
    | Unreadable                         // reading or `JSON.parse` threw
    | Saved(sessions: seq<PracticeSession>)

  /** A history together with what is left in storage afterwards. */
  datatype Update = Update(history: seq<PracticeSession>, stored: Stored)

  /** The demonstration history a fresh install shows: four weekly G/C sessions. */
  const InitialHistory: seq<PracticeSession> := [
    PracticeSession("1", "2023-10-01", "G", "C", 35, 12, 60),
    PracticeSession("2", "2023-10-08", "G", "C", 42, 18, 60),
    PracticeSession("3", "2023-10-15", "G", "C", 48, 24, 60),
    PracticeSession("4", "2023-10-22", "G", "C", 52, 28, 60)
  ]

  /** `getHistory`: the saved sessions, or the demonstration history when there are none or they cannot be read. */
  function GetHistory(st: Stored): (r: seq<PracticeSession>)
    ensures st.Saved? ==> r == st.sessions
    ensures r == [] ==> st == Saved([])
  {
    match st
    case Saved(h) => h
    case _ => InitialHistory
  }

  /** The demonstration history is one G/C pair practised at a rising tempo, with distinct ids. */
  lemma InitialHistoryShape()
    ensures |InitialHistory| == 4
    ensures forall i :: 0 <= i < 4 ==> InitialHistory[i].chordA == "G" && InitialHistory[i].chordB == "C"
    ensures forall i :: 0 <= i < 4 ==> InitialHistory[i].durationSeconds == 60
    ensures forall i, j :: 0 <= i < j < 4 ==> InitialHistory[i].bpm < InitialHistory[j].bpm
    ensures forall i, j :: 0 <= i < j < 4 ==> InitialHistory[i].id != InitialHistory[j].id
  {
  }

  /** Without a readable saved history, `getHistory` falls back to the demonstration history. */
  lemma GetHistoryFallback(st: Stored)
    requires st == Missing || st == Unreadable
    ensures GetHistory(st) == InitialHistory && |GetHistory(st)| == 4
  {
  }

  /** `addSession`: the current history with one new session, stamped with `id`, at the end; the result is saved. */
  function AddSession(st: Stored, draft: SessionDraft, id: string): (u: Update)
    ensures |u.history| == |GetHistory(st)| + 1
    ensures u.history[..|GetHistory(st)|] == GetHistory(st)
    ensures u.history[|GetHistory(st)|].id == id && u.history[|GetHistory(st)|].Draft() == draft
    ensures u.stored.Saved?
  {
    var updated := GetHistory(st) + [draft.WithId(id)];
    Update(updated, Saved(updated))
  }

  /** What `addSession` saves is what the next `getHistory` returns. */
  lemma AddThenGet(st: Stored, draft: SessionDraft, id: string)
    ensures GetHistory(AddSession(st, draft, id).stored) == AddSession(st, draft, id).history
  {
  }

  /** Two `addSession` calls in a row append both sessions, in call order. */
  lemma AddTwice(st: Stored, d1: SessionDraft, id1: string, d2: SessionDraft, id2: string)
    ensures var u1 := AddSession(st, d1, id1);
            AddSession(u1.stored, d2, id2).history == GetHistory(st) + [d1.WithId(id1), d2.WithId(id2)]
  {
  }

  // ---------------------------------------------------------------------
  // CSV import
  // ---------------------------------------------------------------------

  /** The count and BPM columns: `parseInt(field) || 0`. */
  function NumberField(field: string): int
  {
    IntOrZero(ParseInt(field))
  }

  /**
   * One line of the import: blank lines and lines with fewer than five
   * comma-separated fields are dropped; otherwise the trimmed first three
   * fields give the date and the chords, the fourth the count, the fifth the
   * BPM, and the duration is taken to be 60 seconds.
   */
  function ParseLine(line: string): (r: Option<SessionDraft>)
    ensures Trim(line) == "" ==> r.None?
    ensures r.Some? ==> |Split(Trim(line), ',')| >= 5 && r.value.durationSeconds == 60
    ensures r.Some? ==> ',' !in r.value.date && ',' !in r.value.chordA && ',' !in r.value.chordB
  {
    var t := Trim(line);
    if t == "" then None
    else
      var parts := Split(t, ',');
      if |parts| < 5 then None
      else Some(SessionDraft(Trim(parts[0]), Trim(parts[1]), Trim(parts[2]),
                             NumberField(parts[4]), NumberField(parts[3]), 60))
  }

  /** A line yields a session exactly when, trimmed, it holds at least four commas. */
  lemma ParseLineAccepts(line: string)
    ensures ParseLine(line).Some? <==> CountChar(Trim(line), ',') >= 4
    ensures ParseLine(line).Some? ==> ParseLine(line).value.durationSeconds == 60
  {
    var t := Trim(line);
    if t == "" {
      assert CountChar(t, ',') == 0;
    }
  }

  /**
   * A row of at least five comma-free fields reads as its first five fields,
   * trimmed where the source trims them; any further fields are ignored.
   * White space around the fields is allowed: the outer trim of the line only
   * cuts the start of the first field and the end of the last, and `parseInt`
   * ignores white space after a number.
   */
  lemma ParseLineOfFields(parts: seq<string>)
    requires |parts| >= 5
    requires forall k :: 0 <= k < |parts| ==> ',' !in parts[k]
    ensures ParseLine(Join(parts, ',')) ==
              Some(SessionDraft(Trim(parts[0]), Trim(parts[1]), Trim(parts[2]),
                                NumberField(parts[4]), NumberField(parts[3]), 60))
  {
    var q := OuterTrimmed(parts);
    SplitTrimJoin(parts, ',');
    ParseLineOfSplit(Join(parts, ','), q);
    OuterFields(parts);
  }

  /** `ParseLine` in terms of the pieces the trimmed line splits into. */
  lemma ParseLineOfSplit(line: string, q: seq<string>)
    requires Split(Trim(line), ',') == q && |q| >= 5
    ensures ParseLine(line) ==
              Some(SessionDraft(Trim(q[0]), Trim(q[1]), Trim(q[2]), NumberField(q[4]), NumberField(q[3]), 60))
  {
    assert |Split("", ',')| == 1;
  }

  /** The outer trim leaves the five fields reading as they did. */
  lemma OuterFields(parts: seq<string>)
    requires |parts| >= 5
    ensures var q := OuterTrimmed(parts);
            && Trim(q[0]) == Trim(parts[0]) && q[1] == parts[1] && q[2] == parts[2] && q[3] == parts[3]
            && NumberField(q[4]) == NumberField(parts[4])
  {
    TrimAfterTrimStart(parts[0]);
    if |parts| == 5 {
      ParseIntTrimEnd(parts[4]);
    }
  }

  predicate Accepted(line: string)
  {
    ParseLine(line).Some?
  }

  /** The sessions the lines yield, in line order. */
  function Drafts(lines: seq<string>): seq<SessionDraft>
  {
    FilterMap(lines, ParseLine)
  }

  /** The header test: the first line is skipped when, lower-cased, it contains "date". */
  predicate IsHeader(line: string)
    ensures IsHeader(line) ==> |line| >= 4
  {
    Contains(ToLower(line), "date")
  }

  /** The lines the import reads: all of them, less a header line. */
  function DataLines(text: string): (r: seq<string>)
    ensures var lines := Split(text, '\n');
            |lines| - 1 <= |r| <= |lines| && r == lines[|lines| - |r|..]
  {
    var lines := Split(text, '\n');
    if IsHeader(lines[0]) then lines[1..] else lines
  }

  /** The sessions a CSV text yields, before they get ids. */
  function Imported(text: string): seq<SessionDraft>
  {
    Drafts(DataLines(text))
  }

  /** The text yields one draft per accepted data line. */
  lemma ImportedCount(text: string)
    ensures |Imported(text)| == CountIf(DataLines(text), Accepted) <= |DataLines(text)|
  {
    FilterMapCount(DataLines(text), ParseLine, Accepted);
    FilterLength(DataLines(text), Accepted);
  }

  /**
   * The first line is read as data unless it is a header; every later line
   * is always read as data.
   */
  lemma FirstLine(text: string)
    ensures var lines := Split(text, '\n');
            var first := ParseLine(lines[0]);
            var rest := Drafts(lines[1..]);
            Imported(text) == if IsHeader(lines[0]) || first.None? then rest else [first.value] + rest
  {
    var lines := Split(text, '\n');
    FilterMapCons(lines[0], lines[1..], ParseLine);
    assert [lines[0]] + lines[1..] == lines;
  }

  /** The import adds one session per accepted data line. */
  lemma ImportCount(st: Stored, text: string, mint: nat -> string)
    ensures |ImportCsv(st, text, mint).history| ==
              |GetHistory(st)| + CountIf(DataLines(text), Accepted)
  {
    FilterMapCount(DataLines(text), ParseLine, Accepted);
  }

  /** The new sessions: the `j`-th imported draft gets the id `mint(j)`. */
  function Stamp(drafts: seq<SessionDraft>, mint: nat -> string): (r: seq<PracticeSession>)
    ensures |r| == |drafts|
    ensures forall j :: 0 <= j < |r| ==> r[j].Draft() == drafts[j] && r[j].id == mint(j)
  {
    var r := seq(|drafts|, j requires 0 <= j < |drafts| => drafts[j].WithId(mint(j)));
    assert forall j :: 0 <= j < |r| ==> r[j] == drafts[j].WithId(mint(j));
    r
  }

  /** The current history followed by the drafts stamped with fresh ids. */
  function Append(cur: seq<PracticeSession>, drafts: seq<SessionDraft>, mint: nat -> string): (r: seq<PracticeSession>)
    ensures |r| == |cur| + |drafts|
    ensures r[..|cur|] == cur
    ensures forall j :: 0 <= j < |drafts| ==> r[|cur| + j].Draft() == drafts[j] && r[|cur| + j].id == mint(j)
  {
    var news := Stamp(drafts, mint);
    assert forall j :: 0 <= j < |news| ==> (cur + news)[|cur| + j] == news[j];
    cur + news
  }

  /**
   * `importCSV`: the sessions the text yields, with fresh ids, appended to the
   * current history and saved; when the text yields none, the current history
   * and the storage are left as they are.
   */
  function ImportCsv(st: Stored, text: string, mint: nat -> string): (u: Update)
    ensures var cur := GetHistory(st);
            var news := Imported(text);
            && |u.history| == |cur| + |news|
            && u.history[..|cur|] == cur
            && (forall j :: 0 <= j < |news| ==>
                  u.history[|cur| + j].Draft() == news[j] && u.history[|cur| + j].id == mint(j))
            && (|news| == 0 ==> u == Update(cur, st))
            && (|news| > 0 ==> u.stored == Saved(u.history))
  {
    var cur := GetHistory(st);
    var drafts := Imported(text);
    if |drafts| > 0 then
      var updated := Append(cur, drafts, mint);
      Update(updated, Saved(updated))
    else
      assert cur[..|cur|] == cur;
      Update(cur, st)
  }

  /** The import saves what the next `getHistory` returns. */
  lemma ImportThenGet(st: Stored, text: string, mint: nat -> string)
    ensures GetHistory(ImportCsv(st, text, mint).stored) == ImportCsv(st, text, mint).history
  {
  }

  /** A text none of whose data lines is accepted changes nothing. */
  lemma ImportNothing(st: Stored, text: string, mint: nat -> string)
    requires forall i :: 0 <= i < |DataLines(text)| ==> ParseLine(DataLines(text)[i]).None?
    ensures ImportCsv(st, text, mint) == Update(GetHistory(st), st)
  {
    FilterMapNone(DataLines(text), ParseLine);
  }

  /** Stamping one more draft gives it the next id. */
  lemma StampSnoc(drafts: seq<SessionDraft>, d: SessionDraft, mint: nat -> string)
    ensures Stamp(drafts + [d], mint) == Stamp(drafts, mint) + [d.WithId(mint(|drafts|))]
  {
    var a := Stamp(drafts + [d], mint);
    var b := Stamp(drafts, mint) + [d.WithId(mint(|drafts|))];
    assert |a| == |b|;
    forall j | 0 <= j < |a| ensures a[j] == b[j] {
      assert (drafts + [d])[j] == if j < |drafts| then drafts[j] else d;
    }
  }

  /** One more line read: its session, if any, is stamped with the next id and pushed. */
  lemma StampStep(lines: seq<string>, lo: nat, i: nat, parse: string -> Option<SessionDraft>, mint: nat -> string)
    requires lo <= i < |lines|
    ensures var before := FilterMap(lines[lo..i], parse);
            var d := parse(lines[i]);
            Stamp(FilterMap(lines[lo..i + 1], parse), mint) ==
              Stamp(before, mint) + (if d.Some? then [d.value.WithId(mint(|before|))] else [])
  {
    var seen := lines[lo..i + 1];
    assert seen[..|seen| - 1] == lines[lo..i];
    assert seen[|seen| - 1] == lines[i];
    var before := FilterMap(lines[lo..i], parse);
    var d := parse(lines[i]);
    if d.Some? {
      assert FilterMap(seen, parse) == before + [d.value];
      StampSnoc(before, d.value, mint);
    } else {
      assert FilterMap(seen, parse) == before;
    }
  }

  /**
   * The `for` loop of `importCSV`: from line `lo` on, every line `parse`
   * accepts pushes one session, stamped with the next fresh id.
   */
  method ReadLines(lines: seq<string>, lo: nat, parse: string -> Option<SessionDraft>, mint: nat -> string)
    returns (newSessions: seq<PracticeSession>)
    requires lo <= |lines|
    ensures |newSessions| == |FilterMap(lines[lo..], parse)|
    ensures newSessions == Stamp(FilterMap(lines[lo..], parse), mint)
  {
    newSessions := [];
    var i := lo;
    while i < |lines|
      invariant lo <= i <= |lines|
      invariant newSessions == Stamp(FilterMap(lines[lo..i], parse), mint)
    {
      StampStep(lines, lo, i, parse, mint);
      var d := parse(lines[i]);
      if d.Some? {
        newSessions := newSessions + [d.value.WithId(mint(|newSessions|))];
      }
      i := i + 1;
    }
    assert lines[lo..i] == lines[lo..];
  }

  /** `importCSV` as written: skip a header line, read the rest, append if anything was read. */
  method ImportCsvLoop(st: Stored, text: string, mint: nat -> string) returns (u: Update)
    ensures u == ImportCsv(st, text, mint)
  {
    var lines := Split(text, '\n');
    var startIndex := 0;
    if IsHeader(lines[0]) {
      startIndex := 1;
    }
    var newSessions := ReadLines(lines, startIndex, ParseLine, mint);
    assert lines[startIndex..] == DataLines(text);
    if |newSessions| > 0 {
      var updated := GetHistory(st) + newSessions;
      u := Update(updated, Saved(updated));
    } else {
      u := Update(GetHistory(st), st);
    }
  }
}
