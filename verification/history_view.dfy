/**
 * The history screen: the pair it graphs, the pairs it offers, the sessions
 * it plots, the best tempo it shows and the CSV export.
 *
 * A pair is named by the key `a-b` of its two chord ids in sorted order; the
 * selection is such a key, or "" for none.
 */
module HistoryView {
  import opened Util
  import opened Text
  import opened Types
  import opened HistoryService
  import opened Mastery

  /** `${a}-${b}` of `[chordA, chordB].sort()`. */
  function PairKeyOf(chordA: string, chordB: string): (k: string)
    ensures '-' in k
  {
    var p := SortPair(chordA, chordB);
    assert (p.0 + "-" + p.1)[|p.0|] == '-';
    p.0 + "-" + p.1
  }

  function SessionKey(s: PracticeSession): string
  {
    PairKeyOf(s.chordA, s.chordB)
  }

  /** The key does not depend on the order the two chords were practised in. */
  lemma PairKeyOfSymmetric(a: string, b: string)
    ensures PairKeyOf(a, b) == PairKeyOf(b, a)
  {
    SortPairSymmetric(a, b);
  }

  /** Splitting a key at '-' gives the sorted pair back, as long as neither id holds a '-'. */
  lemma PairKeySplits(a: string, b: string)
    requires '-' !in a && '-' !in b
    ensures var p := SortPair(a, b);
            Split(PairKeyOf(a, b), '-') == [p.0, p.1]
  {
    var p := SortPair(a, b);
    assert Join([p.0, p.1], '-') == PairKeyOf(a, b);
    SplitJoin([p.0, p.1], '-');
  }

  /** Among ids without a '-', two pairs share a key exactly when they are the same pair in some order. */
  lemma PairKeyInjective(a: string, b: string, c: string, d: string)
    requires '-' !in a && '-' !in b && '-' !in c && '-' !in d
    ensures PairKeyOf(a, b) == PairKeyOf(c, d) <==> SortPair(a, b) == SortPair(c, d)
  {
    PairKeySplits(a, b);
    PairKeySplits(c, d);
  }

  /** The selection after loading: the first session's pair when nothing is selected yet. */
  function DefaultSelection(history: seq<PracticeSession>, selected: string): (r: string)
    ensures r == "" <==> selected == "" && |history| == 0
    ensures selected != "" ==> r == selected
  {
    if |history| > 0 && selected == "" then SessionKey(history[0]) else selected
  }

  // ---------------------------------------------------------------------
  // The pairs offered and the sessions plotted
  // ---------------------------------------------------------------------

  /** `uniquePairs`: each session's key added to a `Set`, in insertion order. */
  function UniquePairs(data: seq<PracticeSession>): (r: seq<string>)
    ensures |r| <= |data|
    ensures NoDuplicates(r)
    ensures forall k :: k in r <==> exists i :: 0 <= i < |data| && SessionKey(data[i]) == k
  {
    if |data| == 0 then []
    else
      var init := data[..|data| - 1];
      assert forall i :: 0 <= i < |init| ==> init[i] == data[i];
      SetAdd(UniquePairs(init), SessionKey(data[|data| - 1]))
  }

  /** The pairs of a prefix of the history come first, in the same order. */
  lemma {:induction false} UniquePairsPrefix(data: seq<PracticeSession>, n: nat)
    requires n <= |data|
    ensures var u := UniquePairs(data[..n]);
            |u| <= |UniquePairs(data)| && UniquePairs(data)[..|u|] == u
    decreases |data| - n
  {
    if n < |data| {
      var init := data[..|data| - 1];
      assert init[..n] == data[..n];
      UniquePairsPrefix(init, n);
      var u, v := UniquePairs(data[..n]), UniquePairs(init);
      assert UniquePairs(data)[..|v|] == v;
      assert UniquePairs(data)[..|u|] == v[..|u|];
    } else {
      assert data[..n] == data;
    }
  }

  /** The first pair offered is the first session's. */
  lemma UniquePairsFirst(data: seq<PracticeSession>)
    requires |data| > 0
    ensures |UniquePairs(data)| > 0 && UniquePairs(data)[0] == SessionKey(data[0])
  {
    UniquePairsPrefix(data, 1);
    assert data[..1][..0] == [];
  }

  /** `filteredData`: nothing without a selection, else the sessions of the selected pair in history order. */
  function FilteredData(data: seq<PracticeSession>, selected: string): (r: seq<PracticeSession>)
    ensures |r| <= |data|
    ensures selected == "" ==> r == []
    ensures forall s :: s in r <==> selected != "" && s in data && SessionKey(s) == selected
  {
    if selected == "" then [] else Filter(data, s => SessionKey(s) == selected)
  }

  /** Only ids without a '-' are read back unambiguously from a key. */
  predicate DashFree(data: seq<PracticeSession>)
  {
    forall i :: 0 <= i < |data| ==> '-' !in data[i].chordA && '-' !in data[i].chordB
  }

  /**
   * The sessions the graph plots for a pair are the sessions the mastery
   * check reads for it, when no id holds a '-'.
   */
  lemma {:induction false} FilteredIsPairHistory(data: seq<PracticeSession>, a: string, b: string)
    requires DashFree(data) && '-' !in a && '-' !in b
    ensures FilteredData(data, PairKeyOf(a, b)) == PairHistory(data, SortPair(a, b))
  {
    if |data| > 0 {
      var h := data[0];
      PairKeyInjective(h.chordA, h.chordB, a, b);
      FilteredIsPairHistory(data[1..], a, b);
    }
  }

  /** Picking a session's pair plots that session, and every other session of the pair. */
  lemma SelectShowsSession(data: seq<PracticeSession>, s: PracticeSession)
    requires s in data
    ensures s in FilteredData(data, PairKeyOf(s.chordA, s.chordB))
    ensures forall t :: t in data && SessionKey(t) == SessionKey(s) ==> t in FilteredData(data, PairKeyOf(s.chordA, s.chordB))
  {
  }

  /** With a history, the default selection plots at least the first session. */
  lemma DefaultShowsFirst(history: seq<PracticeSession>)
    requires |history| > 0
    ensures history[0] in FilteredData(history, DefaultSelection(history, ""))
    ensures DefaultSelection(history, "") in UniquePairs(history)
  {
  }

  /** `getPairLabel`: "Select Pair", or the two halves of the key around "⇄"; a missing half reads "undefined". */
  function PairLabel(key: string): (r: string)
    ensures r == "Select Pair" <==> key == ""
    ensures key != "" ==> '\U{21C4}' in r
  {
    if key == "" then "Select Pair"
    else
      var parts := Split(key, '-');
      var b := if |parts| >= 2 then parts[1] else "undefined";
      var r := parts[0] + " \U{21C4} " + b;
      assert r[|parts[0]| + 1] == '\U{21C4}' && '\U{21C4}' !in "Select Pair";
      r
  }

  /** A key made of ids without a '-' is labelled with the sorted pair. */
  lemma PairLabelOfKey(a: string, b: string)
    requires '-' !in a && '-' !in b
    ensures var p := SortPair(a, b);
            PairLabel(PairKeyOf(a, b)) == p.0 + " \U{21C4} " + p.1
  {
    PairKeySplits(a, b);
  }

  /** `maxBpm`: 0 for no sessions, else the highest tempo among them. */
  function MaxBpm(sessions: seq<PracticeSession>): (r: int)
    ensures |sessions| == 0 ==> r == 0
    ensures |sessions| > 0 ==> exists i :: 0 <= i < |sessions| && sessions[i].bpm == r
    ensures forall i :: 0 <= i < |sessions| ==> sessions[i].bpm <= r
  {
    if |sessions| == 0 then 0
    else if |sessions| == 1 then sessions[0].bpm
    else
      var rest := MaxBpm(sessions[1..]);
      assert forall i :: 1 <= i < |sessions| ==> sessions[i] == sessions[1..][i - 1];
      Max(sessions[0].bpm, rest)
  }

  // ---------------------------------------------------------------------
  // CSV export
  // ---------------------------------------------------------------------

  const Header: string := "Date,Chord A,Chord B,Count,BPM"

  function RowFields(s: PracticeSession): seq<string>
  {
    [s.date, s.chordA, s.chordB, IntToString(s.count), IntToString(s.bpm)]
  }

  /** One exported row: date, chords, count and tempo, joined with ','. */
  function Row(s: PracticeSession): (r: string)
    ensures IsPrefix(s.date, r) && |s.date| < |r| && r[|s.date|] == ','
  {
    Join(RowFields(s), ',')
  }

  function Rows(data: seq<PracticeSession>): (r: seq<string>)
    ensures |r| == |data| && forall i :: 0 <= i < |data| ==> r[i] == Row(data[i])
  {
    seq(|data|, i requires 0 <= i < |data| => Row(data[i]))
  }

  /** `downloadCSV`'s text, without the data-URI prefix: the header line, then one line per session. */
  function ExportCsv(data: seq<PracticeSession>): (r: string)
    ensures IsPrefix(Header + "\n", r)
    ensures |data| == 0 ==> r == Header + "\n"
  {
    Header + "\n" + Join(Rows(data), '\n')
  }

  /** A session the export writes so that the import reads it back: text fields free of ',' and line breaks, with no whitespace at their ends. */
  predicate Exportable(s: PracticeSession)
  {
    && ',' !in s.date && ',' !in s.chordA && ',' !in s.chordB
    && '\n' !in s.date && '\n' !in s.chordA && '\n' !in s.chordB
    && Trimmed(s.date) && Trimmed(s.chordA) && Trimmed(s.chordB)
  }

  lemma NumeralFree(n: int, c: char)
    requires c == ',' || c == '\n'
    ensures c !in IntToString(n)
  {
  }

  /** An exportable session's row is one line of five comma-free fields. */
  lemma RowShape(s: PracticeSession)
    requires Exportable(s)
    ensures forall k :: 0 <= k < 5 ==> ',' !in RowFields(s)[k] && '\n' !in RowFields(s)[k]
    ensures '\n' !in Row(s)
  {
    NumeralFree(s.count, ',');
    NumeralFree(s.count, '\n');
    NumeralFree(s.bpm, ',');
    NumeralFree(s.bpm, '\n');
    JoinAvoids(RowFields(s), ',', '\n');
  }

  /** The export's lines: the header, then the rows, or one empty line when there are none. */
  lemma ExportLines(data: seq<PracticeSession>)
    requires forall i :: 0 <= i < |data| ==> Exportable(data[i])
    ensures Split(ExportCsv(data), '\n') == [Header] + (if |data| == 0 then [""] else Rows(data))
  {
    forall i | 0 <= i < |data| ensures '\n' !in Rows(data)[i] {
      RowShape(data[i]);
    }
    assert '\n' !in Header;
    SplitAfterPiece(Header, '\n', Join(Rows(data), '\n'));
    if |data| == 0 {
      assert Split("", '\n') == [""];
    } else {
      SplitJoin(Rows(data), '\n');
    }
  }

  lemma HeaderIsHeader()
    ensures IsHeader(Header)
  {
    var low := ToLower(Header);
    assert low[..4] == "date";
  }

  /** An exported row reads back as its session, less the id and with a 60-second duration. */
  lemma RowReadsBack(s: PracticeSession)
    requires Exportable(s)
    ensures ParseLine(Row(s)) == Some(s.Draft().(durationSeconds := 60))
  {
    RowShape(s);
    ParseLineOfFields(RowFields(s));
    TrimOfTrimmed(s.date);
    TrimOfTrimmed(s.chordA);
    TrimOfTrimmed(s.chordB);
    ParseIntOfIntToString(s.count);
    ParseIntOfIntToString(s.bpm);
  }

  /**
   * Importing an export gives every session back, in order, without its id
   * and with the duration reset to 60 seconds.
   */
  lemma ExportThenImport(data: seq<PracticeSession>)
    requires forall i :: 0 <= i < |data| ==> Exportable(data[i])
    ensures |Imported(ExportCsv(data))| == |data|
    ensures forall i :: 0 <= i < |data| ==> Imported(ExportCsv(data))[i] == data[i].Draft().(durationSeconds := 60)
  {
    ExportLines(data);
    HeaderIsHeader();
    var text := ExportCsv(data);
    assert Split(text, '\n')[0] == Header;
    if |data| == 0 {
      assert DataLines(text) == [""];
      FilterMapNone(DataLines(text), ParseLine);
    } else {
      assert DataLines(text) == Rows(data);
      forall i | 0 <= i < |data| ensures ParseLine(Rows(data)[i]).Some? {
        RowReadsBack(data[i]);
      }
      FilterMapAll(Rows(data), ParseLine);
      forall i | 0 <= i < |data| ensures Imported(text)[i] == data[i].Draft().(durationSeconds := 60) {
        RowReadsBack(data[i]);
      }
    }
  }

  /** Importing an export appends a copy of every session, with fresh ids and a 60-second duration. */
  lemma ExportThenImportCsv(st: Stored, data: seq<PracticeSession>, mint: nat -> string)
    requires forall i :: 0 <= i < |data| ==> Exportable(data[i])
    ensures var cur := GetHistory(st);
            var u := ImportCsv(st, ExportCsv(data), mint);
            && |u.history| == |cur| + |data|
            && u.history[..|cur|] == cur
            && forall i :: 0 <= i < |data| ==>
                 u.history[|cur| + i] == data[i].(id := mint(i), durationSeconds := 60)
  {
    ExportThenImport(data);
  }
}
