/**
 * The admin import of lyrics from a file: validation, duplicates within the
 * file, the choice between creating, updating and skipping, and a report that
 * comes out in file order. Parsing the file, validating one row and the
 * database are outside; what they answer is arbitrary.
 */
module LyricImport {
  import opened Prelude

  datatype Mode = CreateOnly | Upsert

  datatype Lyric = Lyric(artist: string, songTitle: string, content: string)

  /** One record of the file after validation. */
  datatype ImportRow = Rejected(reasons: seq<string>) | Accepted(lyric: Lyric)

  /** Lines of the file are numbered from 1. */
  type Line = n: nat | n >= 1 witness 1

  datatype Status = Errored | Skipped | Created | Updated

  datatype Problem = NoProblem | Invalid(reasons: seq<string>) | DuplicateOf(line: Line)

  datatype RowReport = RowReport(row: Line, status: Status, problem: Problem)

  datatype Report = Report(
    dryRun: bool, mode: Mode, total: nat, created: nat, updated: nat, skipped: nat, errors: nat, rows: seq<RowReport>)

  datatype Entry = Entry(line: Line, lyric: Lyric)

  /** Artist and title around a NUL character. */
  function Key(l: Lyric): string {
    l.artist + ['\0'] + l.songTitle
  }

  // ----- What each row deserves -----

  /** The first accepted row among the first n that has this key. */
  function FirstWith(rows: seq<ImportRow>, n: nat, key: string): (r: Option<nat>)
    requires n <= |rows|
    ensures r.Some? ==> r.value < n && rows[r.value].Accepted? && Key(rows[r.value].lyric) == key
    ensures forall k | 0 <= k < (if r.Some? then r.value else n) :: rows[k].Accepted? ==> Key(rows[k].lyric) != key
  {
    if n == 0 then None
    else
      var earlier := FirstWith(rows, n - 1, key);
      if earlier.Some? then earlier
      else if rows[n - 1].Accepted? && Key(rows[n - 1].lyric) == key then Some(n - 1) else None
  }

  function Decide(l: Lyric, existing: set<string>, mode: Mode): Status {
    if Key(l) !in existing then Created else if mode == CreateOnly then Skipped else Updated
  }

  function Verdict(rows: seq<ImportRow>, i: nat, existing: set<string>, mode: Mode): RowReport
    requires i < |rows|
  {
    match rows[i]
    case Rejected(reasons) => RowReport(i + 1, Errored, Invalid(reasons))
    case Accepted(lyric) =>
      var first := FirstWith(rows, i, Key(lyric));
      if first.Some? then RowReport(i + 1, Errored, DuplicateOf(first.value + 1))
      else RowReport(i + 1, Decide(lyric, existing, mode), NoProblem)
  }

  function Verdicts(rows: seq<ImportRow>, n: nat, existing: set<string>, mode: Mode): seq<RowReport>
    requires n <= |rows|
  {
    if n == 0 then [] else Verdicts(rows, n - 1, existing, mode) + [Verdict(rows, n - 1, existing, mode)]
  }

  lemma {:induction false} VerdictsAt(rows: seq<ImportRow>, n: nat, existing: set<string>, mode: Mode)
    requires n <= |rows|
    ensures |Verdicts(rows, n, existing, mode)| == n
    ensures forall i | 0 <= i < n :: Verdicts(rows, n, existing, mode)[i] == Verdict(rows, i, existing, mode)
  {
    if n > 0 {
      VerdictsAt(rows, n - 1, existing, mode);
    }
  }

  function WithStatus(reports: seq<RowReport>, status: Status): seq<RowReport> {
    if reports == [] then []
    else
      var n := |reports| - 1;
      WithStatus(reports[..n], status) + (if reports[n].status == status then [reports[n]] else [])
  }

  lemma WithStatusPush(reports: seq<RowReport>, r: RowReport, status: Status)
    ensures WithStatus(reports + [r], status)
         == WithStatus(reports, status) + (if r.status == status then [r] else [])
  {
    assert (reports + [r])[..|reports|] == reports;
  }

  /** The rows of one report line that carry a status. */
  function Only(r: RowReport, status: Status): seq<RowReport> {
    if r.status == status then [r] else []
  }

  lemma VerdictStep(rows: seq<ImportRow>, m: nat, n: nat, status: Status, existing: set<string>, mode: Mode)
    requires m + 1 == n <= |rows|
    ensures WithStatus(Verdicts(rows, n, existing, mode), status)
         == WithStatus(Verdicts(rows, m, existing, mode), status) + Only(Verdict(rows, m, existing, mode), status)
  {
    WithStatusPush(Verdicts(rows, m, existing, mode), Verdict(rows, m, existing, mode), status);
  }

  /** How many rows of a report carry a status. */
  function Tally(reports: seq<RowReport>, status: Status): nat {
    |WithStatus(reports, status)|
  }

  // ----- The rows that survive validation and the duplicate check -----

  function Fresh(rows: seq<ImportRow>, n: nat): seq<Entry>
    requires n <= |rows|
  {
    if n == 0 then []
    else
      Fresh(rows, n - 1)
      + (if rows[n - 1].Accepted? && FirstWith(rows, n - 1, Key(rows[n - 1].lyric)).None?
         then [Entry(n, rows[n - 1].lyric)] else [])
  }

  function Chosen(entries: seq<Entry>, status: Status, existing: set<string>, mode: Mode): seq<Entry> {
    if entries == [] then []
    else
      var n := |entries| - 1;
      Chosen(entries[..n], status, existing, mode)
      + (if Decide(entries[n].lyric, existing, mode) == status then [entries[n]] else [])
  }

  lemma ChosenPush(entries: seq<Entry>, e: Entry, status: Status, existing: set<string>, mode: Mode)
    ensures Chosen(entries + [e], status, existing, mode)
         == Chosen(entries, status, existing, mode)
            + (if Decide(e.lyric, existing, mode) == status then [e] else [])
  {
    assert (entries + [e])[..|entries|] == entries;
  }

  function Lines(entries: seq<Entry>, status: Status): seq<RowReport> {
    seq(|entries|, i requires 0 <= i < |entries| => RowReport(entries[i].line, status, NoProblem))
  }

  function Lyrics(entries: seq<Entry>): seq<Lyric> {
    seq(|entries|, i requires 0 <= i < |entries| => entries[i].lyric)
  }

  lemma LinesPush(entries: seq<Entry>, e: Entry, status: Status)
    ensures Lines(entries + [e], status) == Lines(entries, status) + [RowReport(e.line, status, NoProblem)]
  {
  }

  lemma FreshStep(rows: seq<ImportRow>, n: nat, status: Status, existing: set<string>, mode: Mode)
    requires 0 < n <= |rows| && status != Errored
    ensures Lines(Chosen(Fresh(rows, n), status, existing, mode), status)
         == Lines(Chosen(Fresh(rows, n - 1), status, existing, mode), status)
            + Only(Verdict(rows, n - 1, existing, mode), status)
  {
    if Fresh(rows, n) != Fresh(rows, n - 1) {
      var e := Entry(n, rows[n - 1].lyric);
      ChosenPush(Fresh(rows, n - 1), e, status, existing, mode);
      LinesPush(Chosen(Fresh(rows, n - 1), status, existing, mode), e, status);
    }
  }

  /** The rows reported with a status are the entries chosen for it, in file order. */
  lemma {:induction false} ChosenAreReported(
      rows: seq<ImportRow>, n: nat, status: Status, existing: set<string>, mode: Mode)
    requires n <= |rows| && status != Errored
    ensures WithStatus(Verdicts(rows, n, existing, mode), status)
         == Lines(Chosen(Fresh(rows, n), status, existing, mode), status)
  {
    if n > 0 {
      var now := Only(Verdict(rows, n - 1, existing, mode), status);
      var before := WithStatus(Verdicts(rows, n - 1, existing, mode), status);
      assert WithStatus(Verdicts(rows, n, existing, mode), status) == before + now by {
        VerdictStep(rows, n - 1, n, status, existing, mode);
      }
      assert Lines(Chosen(Fresh(rows, n), status, existing, mode), status) == before + now by {
        ChosenAreReported(rows, n - 1, status, existing, mode);
        FreshStep(rows, n, status, existing, mode);
      }
    }
  }

  // ----- Putting the report back into file order -----

  function InsertByRow(r: RowReport, reports: seq<RowReport>): seq<RowReport> {
    if reports == [] || r.row <= reports[0].row then [r] + reports
    else [reports[0]] + InsertByRow(r, reports[1..])
  }

  function SortByRow(reports: seq<RowReport>): seq<RowReport> {
    if reports == [] then [] else InsertByRow(reports[0], SortByRow(reports[1..]))
  }

  predicate Ascending(reports: seq<RowReport>) {
    forall i, j | 0 <= i < j < |reports| :: reports[i].row < reports[j].row
  }

  lemma {:induction false} InsertAtItsPlace(reports: seq<RowReport>, k: nat)
    requires Ascending(reports) && k < |reports|
    ensures InsertByRow(reports[k], reports[..k] + reports[k + 1..]) == reports
  {
    var rest := reports[..k] + reports[k + 1..];
    if k == 0 {
      assert rest == reports[1..];
    } else {
      var tail := reports[1..];
      InsertAtItsPlace(tail, k - 1);
      assert rest[1..] == tail[..k - 1] + tail[k..];
      assert tail[k - 1] == reports[k];
    }
  }

  lemma StillAscending(reports: seq<RowReport>, k: nat)
    requires Ascending(reports) && k < |reports|
    ensures Ascending(reports[..k] + reports[k + 1..])
  {
  }

  lemma TakeOut(reports: seq<RowReport>, k: nat)
    requires k < |reports|
    ensures multiset(reports[..k] + reports[k + 1..]) == multiset(reports) - multiset{reports[k]}
  {
    assert reports == reports[..k] + [reports[k]] + reports[k + 1..];
  }

  lemma PlaceOf(r: RowReport, mixed: seq<RowReport>, reports: seq<RowReport>) returns (k: nat)
    requires multiset(mixed) == multiset(reports) && r in mixed
    ensures k < |reports| && reports[k] == r
  {
    assert r in multiset(reports);
    k :| k < |reports| && reports[k] == r;
  }

  /** Sorting any rearrangement of a report that is in file order gives it back. */
  lemma {:induction false} SortRestoresOrder(mixed: seq<RowReport>, reports: seq<RowReport>)
    requires multiset(mixed) == multiset(reports) && Ascending(reports)
    ensures SortByRow(mixed) == reports
  {
    if mixed == [] {
      assert |multiset(reports)| == 0;
    } else {
      var first := mixed[0];
      var k := PlaceOf(first, mixed, reports);
      var rest := reports[..k] + reports[k + 1..];
      assert mixed[..0] + mixed[1..] == mixed[1..];
      TakeOut(mixed, 0);
      TakeOut(reports, k);
      StillAscending(reports, k);
      SortRestoresOrder(mixed[1..], rest);
      InsertAtItsPlace(reports, k);
    }
  }

  function Grouped(reports: seq<RowReport>): seq<RowReport> {
    WithStatus(reports, Errored) + WithStatus(reports, Skipped)
    + WithStatus(reports, Created) + WithStatus(reports, Updated)
  }

  lemma {:induction false} CopiesWithStatus(reports: seq<RowReport>, status: Status, r: RowReport)
    ensures multiset(WithStatus(reports, status))[r] == if r.status == status then multiset(reports)[r] else 0
  {
    if reports != [] {
      var n := |reports| - 1;
      CopiesWithStatus(reports[..n], status, r);
      assert reports == reports[..n] + [reports[n]];
    }
  }

  /** Grouping by status loses and repeats nothing. */
  lemma GroupingKeepsEveryRow(reports: seq<RowReport>)
    ensures multiset(Grouped(reports)) == multiset(reports)
  {
    forall r ensures multiset(Grouped(reports))[r] == multiset(reports)[r] {
      CopiesWithStatus(reports, Errored, r);
      CopiesWithStatus(reports, Skipped, r);
      CopiesWithStatus(reports, Created, r);
      CopiesWithStatus(reports, Updated, r);
    }
  }

  /** So the four counters of a report add up to its length. */
  lemma CountersAddUp(reports: seq<RowReport>)
    ensures Tally(reports, Errored) + Tally(reports, Skipped) + Tally(reports, Created) + Tally(reports, Updated)
         == |reports|
  {
    GroupingKeepsEveryRow(reports);
    assert |multiset(Grouped(reports))| == |multiset(reports)|;
  }

  lemma {:induction false} OnlyErrors(rows: seq<ImportRow>, n: nat, existing: set<string>, mode: Mode)
    requires n <= |rows| && Fresh(rows, n) == []
    ensures WithStatus(Verdicts(rows, n, existing, mode), Errored) == Verdicts(rows, n, existing, mode)
  {
    if n > 0 {
      OnlyErrors(rows, n - 1, existing, mode);
      WithStatusPush(Verdicts(rows, n - 1, existing, mode), Verdict(rows, n - 1, existing, mode), Errored);
    }
  }

  lemma VerdictsAscend(rows: seq<ImportRow>, n: nat, existing: set<string>, mode: Mode)
    requires n <= |rows|
    ensures |Verdicts(rows, n, existing, mode)| == n && Ascending(Verdicts(rows, n, existing, mode))
  {
    VerdictsAt(rows, n, existing, mode);
  }

  /** The rows of a report, in the order the loops push them, and what the final sort makes of them. */
  lemma SortedIntoFileOrder(rows: seq<ImportRow>, existing: set<string>, mode: Mode)
    ensures var verdicts := Verdicts(rows, |rows|, existing, mode);
            var valid := Fresh(rows, |rows|);
            && Tally(verdicts, Created) == |Chosen(valid, Created, existing, mode)|
            && Tally(verdicts, Updated) == |Chosen(valid, Updated, existing, mode)|
            && Tally(verdicts, Skipped) == |Chosen(valid, Skipped, existing, mode)|
            && SortByRow(WithStatus(verdicts, Errored) + Lines(Chosen(valid, Skipped, existing, mode), Skipped)
                         + Lines(Chosen(valid, Created, existing, mode), Created)
                         + Lines(Chosen(valid, Updated, existing, mode), Updated)) == verdicts
  {
    var verdicts := Verdicts(rows, |rows|, existing, mode);
    ChosenAreReported(rows, |rows|, Created, existing, mode);
    ChosenAreReported(rows, |rows|, Updated, existing, mode);
    ChosenAreReported(rows, |rows|, Skipped, existing, mode);
    GroupingKeepsEveryRow(verdicts);
    VerdictsAscend(rows, |rows|, existing, mode);
    SortRestoresOrder(Grouped(verdicts), verdicts);
  }

  // ----- The import -----

  /** The songs handed to the database: those to create in file order, then those to update. */
  function Saved(rows: seq<ImportRow>, existing: set<string>, mode: Mode): seq<Lyric> {
    Lyrics(Chosen(Fresh(rows, |rows|), Created, existing, mode) + Chosen(Fresh(rows, |rows|), Updated, existing, mode))
  }

  // ----- What a report line means -----

  /** An earlier accepted row has this row's key. */
  predicate Repeats(rows: seq<ImportRow>, i: nat)
    requires i < |rows| && rows[i].Accepted?
  {
    exists k | 0 <= k < i :: rows[k].Accepted? && Key(rows[k].lyric) == Key(rows[i].lyric)
  }

  /** Line k is the first accepted one with the key of row i. */
  predicate FirstOfItsKey(rows: seq<ImportRow>, i: nat, k: nat)
    requires i < |rows| && rows[i].Accepted?
  {
    && k < i && rows[k].Accepted? && Key(rows[k].lyric) == Key(rows[i].lyric)
    && forall j | 0 <= j < k :: rows[j].Accepted? ==> Key(rows[j].lyric) != Key(rows[i].lyric)
  }

  /**
   * The report line of row i. A rejected row is an error with its reasons, a
   * repeated song an error that names the first; of the other rows, a new song is
   * created, a known one skipped or updated as the mode says.
   */
  predicate LineMeans(rows: seq<ImportRow>, i: nat, existing: set<string>, mode: Mode, r: RowReport)
    requires i < |rows|
  {
    && r.row == i + 1
    && match rows[i]
       case Rejected(reasons) => r.status == Errored && r.problem == Invalid(reasons)
       case Accepted(lyric) =>
         && (r.status == Errored <==> Repeats(rows, i))
         && (r.status == Errored ==> r.problem.DuplicateOf? && FirstOfItsKey(rows, i, r.problem.line - 1))
         && (r.status != Errored ==> r.problem == NoProblem)
         && (r.status == Created <==> !Repeats(rows, i) && Key(lyric) !in existing)
         && (r.status == Skipped <==> !Repeats(rows, i) && Key(lyric) in existing && mode == CreateOnly)
         && (r.status == Updated <==> !Repeats(rows, i) && Key(lyric) in existing && mode == Upsert)
  }

  lemma VerdictsMean(rows: seq<ImportRow>, i: nat, existing: set<string>, mode: Mode)
    requires i < |rows|
    ensures LineMeans(rows, i, existing, mode, Verdict(rows, i, existing, mode))
  {
  }

  lemma EveryLineMeans(rows: seq<ImportRow>, existing: set<string>, mode: Mode)
    ensures var verdicts := Verdicts(rows, |rows|, existing, mode);
            |verdicts| == |rows| && forall i | 0 <= i < |rows| :: LineMeans(rows, i, existing, mode, verdicts[i])
  {
    VerdictsAt(rows, |rows|, existing, mode);
    forall i | 0 <= i < |rows| ensures LineMeans(rows, i, existing, mode, Verdict(rows, i, existing, mode)) {
      VerdictsMean(rows, i, existing, mode);
    }
  }

  lemma {:induction false} FreshAreRows(rows: seq<ImportRow>, n: nat)
    requires n <= |rows|
    ensures forall e | e in Fresh(rows, n) :: e.line <= n && rows[e.line - 1] == Accepted(e.lyric)
  {
    if n > 0 {
      FreshAreRows(rows, n - 1);
    }
  }

  lemma {:induction false} ChosenFrom(entries: seq<Entry>, status: Status, existing: set<string>, mode: Mode)
    ensures forall e | e in Chosen(entries, status, existing, mode) ::
              e in entries && Decide(e.lyric, existing, mode) == status
  {
    if entries != [] {
      var n := |entries| - 1;
      ChosenFrom(entries[..n], status, existing, mode);
      assert entries[..n] <= entries;
    }
  }

  /** The lyrics of the rows these lines report. */
  predicate LyricsOfLines(rows: seq<ImportRow>, lines: seq<RowReport>, lyrics: seq<Lyric>) {
    |lyrics| == |lines|
    && forall j | 0 <= j < |lines| :: lines[j].row <= |rows| && rows[lines[j].row - 1] == Accepted(lyrics[j])
  }

  lemma ChosenLyrics(rows: seq<ImportRow>, status: Status, existing: set<string>, mode: Mode)
    requires status != Errored
    ensures LyricsOfLines(rows, WithStatus(Verdicts(rows, |rows|, existing, mode), status),
                          Lyrics(Chosen(Fresh(rows, |rows|), status, existing, mode)))
  {
    var chosen := Chosen(Fresh(rows, |rows|), status, existing, mode);
    ChosenAreReported(rows, |rows|, status, existing, mode);
    ChosenFrom(Fresh(rows, |rows|), status, existing, mode);
    FreshAreRows(rows, |rows|);
    forall j | 0 <= j < |chosen|
      ensures Lines(chosen, status)[j].row <= |rows|
      ensures rows[Lines(chosen, status)[j].row - 1] == Accepted(Lyrics(chosen)[j])
    {
      assert chosen[j] in chosen;
    }
  }

  /** What is saved: the songs reported as created, then those reported as updated. */
  lemma SavedAreReported(rows: seq<ImportRow>, existing: set<string>, mode: Mode)
    ensures var verdicts := Verdicts(rows, |rows|, existing, mode);
            LyricsOfLines(rows, WithStatus(verdicts, Created) + WithStatus(verdicts, Updated), Saved(rows, existing, mode))
  {
    ChosenLyrics(rows, Created, existing, mode);
    ChosenLyrics(rows, Updated, existing, mode);
    var verdicts, valid := Verdicts(rows, |rows|, existing, mode), Fresh(rows, |rows|);
    var created, updated := Chosen(valid, Created, existing, mode), Chosen(valid, Updated, existing, mode);
    LyricsAppend(created, updated);
    LinesAppend(rows, WithStatus(verdicts, Created), Lyrics(created), WithStatus(verdicts, Updated), Lyrics(updated));
  }

  lemma LyricsAppend(a: seq<Entry>, b: seq<Entry>)
    ensures Lyrics(a + b) == Lyrics(a) + Lyrics(b)
  {
  }

  lemma LinesAppend(rows: seq<ImportRow>, a: seq<RowReport>, la: seq<Lyric>, b: seq<RowReport>, lb: seq<Lyric>)
    requires LyricsOfLines(rows, a, la) && LyricsOfLines(rows, b, lb)
    ensures LyricsOfLines(rows, a + b, la + lb)
  {
  }

  /** In create-only mode no song that exists is ever written. */
  lemma CreateOnlyNeverOverwrites(rows: seq<ImportRow>, existing: set<string>)
    ensures forall l | l in Saved(rows, existing, CreateOnly) :: Key(l) !in existing
  {
    var valid := Fresh(rows, |rows|);
    ChosenFrom(valid, Created, existing, CreateOnly);
    ChosenFrom(valid, Updated, existing, CreateOnly);
    var all := Chosen(valid, Created, existing, CreateOnly) + Chosen(valid, Updated, existing, CreateOnly);
    forall j | 0 <= j < |all| ensures Key(all[j].lyric) !in existing {
      assert all[j] in all;
    }
  }

  function LookUp(seen: map<string, Line>, key: string): Option<nat> {
    if key in seen then
      var line: nat := seen[key];
      Some(line - 1)
    else None
  }

  /** The map from keys to the line that first carried them, n rows in. */
  ghost predicate SeenUpTo(rows: seq<ImportRow>, n: nat, seen: map<string, Line>)
    requires n <= |rows|
  {
    forall key :: FirstWith(rows, n, key) == LookUp(seen, key)
  }

  lemma SeenStep(rows: seq<ImportRow>, n: nat, seen: map<string, Line>)
    requires n < |rows| && SeenUpTo(rows, n, seen)
    ensures SeenUpTo(rows, n + 1, if rows[n].Accepted? && Key(rows[n].lyric) !in seen
                                  then seen[Key(rows[n].lyric) := n + 1] else seen)
  {
    var next := if rows[n].Accepted? && Key(rows[n].lyric) !in seen then seen[Key(rows[n].lyric) := n + 1] else seen;
    forall key ensures FirstWith(rows, n + 1, key) == LookUp(next, key) {
      assert FirstWith(rows, n, key) == LookUp(seen, key);
    }
  }

  /** What the first loop has done after n rows. */
  ghost predicate CheckedUpTo(
      rows: seq<ImportRow>, n: nat, seen: map<string, Line>, valid: seq<Entry>, reports: seq<RowReport>,
      existing: set<string>, mode: Mode)
  {
    && n <= |rows| && SeenUpTo(rows, n, seen)
    && valid == Fresh(rows, n) && reports == WithStatus(Verdicts(rows, n, existing, mode), Errored)
  }

  /** A row in error is reported and nothing else changes. */
  lemma AfterError(
      rows: seq<ImportRow>, m: nat, n: nat, seen: map<string, Line>, valid: seq<Entry>, reports: seq<RowReport>,
      existing: set<string>, mode: Mode)
    requires CheckedUpTo(rows, m, seen, valid, reports, existing, mode) && m + 1 == n <= |rows|
    requires Verdict(rows, m, existing, mode).status == Errored
    requires rows[m].Accepted? ==> Key(rows[m].lyric) in seen
    ensures CheckedUpTo(rows, n, seen, valid, reports + [Verdict(rows, m, existing, mode)], existing, mode)
  {
    VerdictStep(rows, m, n, Errored, existing, mode);
    SeenStep(rows, m, seen);
    assert Fresh(rows, n) == Fresh(rows, m) by {
      if rows[m].Accepted? {
        assert FirstWith(rows, m, Key(rows[m].lyric)) == LookUp(seen, Key(rows[m].lyric));
      }
    }
  }

  /** The first accepted row of its key is kept and remembered. */
  lemma AfterFresh(
      rows: seq<ImportRow>, m: nat, n: nat, seen: map<string, Line>, valid: seq<Entry>, reports: seq<RowReport>,
      existing: set<string>, mode: Mode)
    requires CheckedUpTo(rows, m, seen, valid, reports, existing, mode) && m + 1 == n <= |rows|
    requires rows[m].Accepted? && Key(rows[m].lyric) !in seen
    ensures CheckedUpTo(rows, n, seen[Key(rows[m].lyric) := n], valid + [Entry(n, rows[m].lyric)], reports, existing, mode)
  {
    assert FirstWith(rows, m, Key(rows[m].lyric)) == LookUp(seen, Key(rows[m].lyric)) == None;
    VerdictStep(rows, m, n, Errored, existing, mode);
    SeenStep(rows, m, seen);
    assert Only(Verdict(rows, m, existing, mode), Errored) == [];
  }

  /** The verdict on a row whose key was seen before. */
  lemma SeenIsDuplicate(rows: seq<ImportRow>, n: nat, seen: map<string, Line>, existing: set<string>, mode: Mode)
    requires n < |rows| && SeenUpTo(rows, n, seen) && rows[n].Accepted? && Key(rows[n].lyric) in seen
    ensures Verdict(rows, n, existing, mode) == RowReport(n + 1, Errored, DuplicateOf(seen[Key(rows[n].lyric)]))
  {
    assert FirstWith(rows, n, Key(rows[n].lyric)) == LookUp(seen, Key(rows[n].lyric));
  }

  /** The first loop: errors are reported at once, the rest is kept for the database. */
  method CheckRows(rows: seq<ImportRow>, ghost existing: set<string>, ghost mode: Mode)
    returns (valid: seq<Entry>, reports: seq<RowReport>, errors: nat)
    ensures valid == Fresh(rows, |rows|)
    ensures reports == WithStatus(Verdicts(rows, |rows|, existing, mode), Errored) && errors == |reports|
  {
    valid, reports, errors := [], [], 0;
    var seen: map<string, Line> := map[];
    for i := 0 to |rows|
      invariant CheckedUpTo(rows, i, seen, valid, reports, existing, mode) && errors == |reports|
    {
      match rows[i]
      case Rejected(reasons) =>
        AfterError(rows, i, i + 1, seen, valid, reports, existing, mode);
        errors := errors + 1;
        reports := reports + [RowReport(i + 1, Errored, Invalid(reasons))];
      case Accepted(lyric) =>
        var key := Key(lyric);
        if key in seen {
          SeenIsDuplicate(rows, i, seen, existing, mode);
          AfterError(rows, i, i + 1, seen, valid, reports, existing, mode);
          errors := errors + 1;
          reports := reports + [RowReport(i + 1, Errored, DuplicateOf(seen[key]))];
        } else {
          AfterFresh(rows, i, i + 1, seen, valid, reports, existing, mode);
          seen := seen[key := i + 1];
          valid := valid + [Entry(i + 1, lyric)];
        }
    }
  }

  /** The second loop, over the entries that are left. */
  method Partition(valid: seq<Entry>, existing: set<string>, mode: Mode)
    returns (toCreate: seq<Entry>, toUpdate: seq<Entry>, reports: seq<RowReport>, skipped: nat)
    ensures toCreate == Chosen(valid, Created, existing, mode)
    ensures toUpdate == Chosen(valid, Updated, existing, mode)
    ensures reports == Lines(Chosen(valid, Skipped, existing, mode), Skipped) && skipped == |reports|
  {
    toCreate, toUpdate, reports, skipped := [], [], [], 0;
    for j := 0 to |valid|
      invariant toCreate == Chosen(valid[..j], Created, existing, mode)
      invariant toUpdate == Chosen(valid[..j], Updated, existing, mode)
      invariant reports == Lines(Chosen(valid[..j], Skipped, existing, mode), Skipped) && skipped == |reports|
    {
      var entry := valid[j];
      assert valid[..j + 1] == valid[..j] + [entry];
      ChosenPush(valid[..j], entry, Created, existing, mode);
      ChosenPush(valid[..j], entry, Updated, existing, mode);
      ChosenPush(valid[..j], entry, Skipped, existing, mode);
      var known := Key(entry.lyric) in existing;
      if known && mode == CreateOnly {
        skipped := skipped + 1;
        reports := reports + [RowReport(entry.line, Skipped, NoProblem)];
      } else if known {
        toUpdate := toUpdate + [entry];
      } else {
        toCreate := toCreate + [entry];
      }
    }
    assert valid[..|valid|] == valid;
  }

  /** The loops that count and report what was created or updated. */
  method ReportEntries(reports: seq<RowReport>, entries: seq<Entry>, status: Status)
    returns (longer: seq<RowReport>, count: nat)
    ensures longer == reports + Lines(entries, status) && count == |entries|
  {
    longer, count := reports, 0;
    for j := 0 to |entries|
      invariant longer == reports + Lines(entries[..j], status) && count == j
    {
      assert entries[..j + 1] == entries[..j] + [entries[j]];
      LinesPush(entries[..j], entries[j], status);
      count := count + 1;
      longer := longer + [RowReport(entries[j].line, status, NoProblem)];
    }
    assert entries[..|entries|] == entries;
  }

  /**
   * Line i of the report is the verdict on row i, the counters count those
   * lines, and a dry run reports exactly what a real run does. What goes to the
   * database is what the report calls created, then what it calls updated, and
   * nothing at all on a dry run.
   */
  method ImportLyrics(rows: seq<ImportRow>, existing: set<string>, mode: Mode, dryRun: bool)
    returns (report: Report, saved: Option<seq<Lyric>>)
    ensures report.total == |report.rows| == |rows|
    ensures forall i | 0 <= i < |rows| :: LineMeans(rows, i, existing, mode, report.rows[i])
    ensures report.dryRun == dryRun && report.mode == mode
    ensures report.created == Tally(report.rows, Created) && report.updated == Tally(report.rows, Updated)
    ensures report.skipped == Tally(report.rows, Skipped) && report.errors == Tally(report.rows, Errored)
    ensures saved.Some? <==> !dryRun && report.created + report.updated > 0
    ensures saved.Some? ==>
              LyricsOfLines(rows, WithStatus(report.rows, Created) + WithStatus(report.rows, Updated), saved.value)
    ensures saved.Some? ==> saved.value == Saved(rows, existing, mode)
  {
    SortedIntoFileOrder(rows, existing, mode);
    EveryLineMeans(rows, existing, mode);
    SavedAreReported(rows, existing, mode);
    saved := None;
    var valid, reports, errors := CheckRows(rows, existing, mode);
    if valid == [] {
      OnlyErrors(rows, |rows|, existing, mode);
      return Report(dryRun, mode, |rows|, 0, 0, 0, errors, reports), None;
    }
    var toCreate, toUpdate, skips, skipped := Partition(valid, existing, mode);
    reports := reports + skips;
    var created, updated;
    if dryRun {
      reports, created := ReportEntries(reports, toCreate, Created);
      reports, updated := ReportEntries(reports, toUpdate, Updated);
      return Report(dryRun, mode, |rows|, created, updated, skipped, errors, SortByRow(reports)), None;
    }
    if |toCreate| > 0 || |toUpdate| > 0 {
      saved := Some(Lyrics(toCreate + toUpdate));
    }
    reports, created := ReportEntries(reports, toCreate, Created);
    reports, updated := ReportEntries(reports, toUpdate, Updated);
    report := Report(dryRun, mode, |rows|, created, updated, skipped, errors, SortByRow(reports));
  }

  // ----- No song reaches the database twice -----

  predicate KeysDiffer(entries: seq<Entry>) {
    forall i, j | 0 <= i < j < |entries| :: Key(entries[i].lyric) != Key(entries[j].lyric)
  }

  predicate Carries(entries: seq<Entry>, key: string) {
    exists i | 0 <= i < |entries| :: Key(entries[i].lyric) == key
  }

  lemma CarriesPush(entries: seq<Entry>, e: Entry, key: string)
    ensures Carries(entries + [e], key) <==> Carries(entries, key) || Key(e.lyric) == key
  {
    if Carries(entries, key) {
      var i :| 0 <= i < |entries| && Key(entries[i].lyric) == key;
      assert (entries + [e])[i] == entries[i];
    }
    assert (entries + [e])[|entries|] == e;
  }

  /** A key survives exactly when some accepted row carries it. */
  lemma {:induction false} EveryKeySurvives(rows: seq<ImportRow>, n: nat, key: string)
    requires n <= |rows|
    ensures Carries(Fresh(rows, n), key) <==> FirstWith(rows, n, key).Some?
  {
    if n > 0 {
      EveryKeySurvives(rows, n - 1, key);
      if Fresh(rows, n) != Fresh(rows, n - 1) {
        CarriesPush(Fresh(rows, n - 1), Entry(n, rows[n - 1].lyric), key);
      }
    }
  }

  /** And it survives once. */
  lemma {:induction false} SurvivorsDiffer(rows: seq<ImportRow>, n: nat)
    requires n <= |rows|
    ensures KeysDiffer(Fresh(rows, n))
  {
    if n > 0 {
      SurvivorsDiffer(rows, n - 1);
      if Fresh(rows, n) != Fresh(rows, n - 1) {
        EveryKeySurvives(rows, n - 1, Key(rows[n - 1].lyric));
      }
    }
  }

  lemma {:induction false} ChosenDiffer(entries: seq<Entry>, status: Status, existing: set<string>, mode: Mode)
    requires KeysDiffer(entries)
    ensures var chosen := Chosen(entries, status, existing, mode);
            && KeysDiffer(chosen)
            && (forall e | e in chosen :: e in entries && Decide(e.lyric, existing, mode) == status)
  {
    if entries != [] {
      var n := |entries| - 1;
      ChosenDiffer(entries[..n], status, existing, mode);
      var chosen := Chosen(entries[..n], status, existing, mode);
      forall i | 0 <= i < |chosen| ensures Key(chosen[i].lyric) != Key(entries[n].lyric) {
        assert chosen[i] in entries[..n];
      }
    }
  }

  /** No two songs handed to the database in one import share artist and title. */
  lemma SavedSongsDiffer(rows: seq<ImportRow>, existing: set<string>, mode: Mode)
    ensures var saved := Saved(rows, existing, mode);
            forall i, j | 0 <= i < j < |saved| :: Key(saved[i]) != Key(saved[j])
  {
    var valid := Fresh(rows, |rows|);
    SurvivorsDiffer(rows, |rows|);
    ChosenDiffer(valid, Created, existing, mode);
    ChosenDiffer(valid, Updated, existing, mode);
    var created := Chosen(valid, Created, existing, mode);
    var updated := Chosen(valid, Updated, existing, mode);
    forall i, j | 0 <= i < |created| && 0 <= j < |updated|
      ensures Key(created[i].lyric) != Key(updated[j].lyric)
    {
      assert created[i] in created && updated[j] in updated;
    }
  }

  /**
   * Two different songs can share a key, and then the second is reported as a
   * duplicate of the first: some other song shares this one's key exactly when
   * its artist or its title holds a NUL character.
   */
  lemma KeyIsAmbiguousExactlyWhen(l: Lyric)
    ensures (exists m: Lyric :: (m.artist, m.songTitle) != (l.artist, l.songTitle) && Key(m) == Key(l))
       <==> '\0' in l.artist || '\0' in l.songTitle
  {
    if '\0' in l.artist {
      var k :| 0 <= k < |l.artist| && l.artist[k] == '\0';
      Regroup(l, Lyric(l.artist[..k], l.artist[k + 1..] + ['\0'] + l.songTitle, ""));
    } else if '\0' in l.songTitle {
      var k :| 0 <= k < |l.songTitle| && l.songTitle[k] == '\0';
      Regroup(l, Lyric(l.artist + ['\0'] + l.songTitle[..k], l.songTitle[k + 1..], ""));
    } else {
      forall m: Lyric | Key(m) == Key(l) ensures m.artist == l.artist && m.songTitle == l.songTitle {
        assert Key(m)[|m.artist|] == '\0' && Key(l)[|l.artist|] == '\0';
        assert Key(m)[..|l.artist|] == l.artist && Key(m)[|l.artist| + 1..] == l.songTitle;
        assert Key(m)[..|m.artist|] == m.artist && Key(m)[|m.artist| + 1..] == m.songTitle;
        assert forall k | 0 <= k < |l.artist| :: Key(l)[k] == l.artist[k];
        assert forall k | 0 <= k < |l.songTitle| :: Key(l)[|l.artist| + 1 + k] == l.songTitle[k];
        assert |m.artist| == |l.artist|;
      }
    }
  }

  lemma Regroup(l: Lyric, m: Lyric)
    requires Key(m) == Key(l) && |m.artist| != |l.artist|
    ensures exists m: Lyric :: (m.artist, m.songTitle) != (l.artist, l.songTitle) && Key(m) == Key(l)
  {
  }

  /**
   * Without NUL characters a row is called a duplicate exactly when an earlier
   * accepted row has its artist and its title.
   */
  lemma DuplicatesAreTheSameSong(rows: seq<ImportRow>, i: nat, existing: set<string>, mode: Mode)
    requires i < |rows| && rows[i].Accepted?
    requires '\0' !in rows[i].lyric.artist && '\0' !in rows[i].lyric.songTitle
    ensures Verdict(rows, i, existing, mode).problem.DuplicateOf?
       <==> exists k | 0 <= k < i :: rows[k].Accepted? && rows[k].lyric.artist == rows[i].lyric.artist
                                     && rows[k].lyric.songTitle == rows[i].lyric.songTitle
  {
    KeyIsAmbiguousExactlyWhen(rows[i].lyric);
    var first := FirstWith(rows, i, Key(rows[i].lyric));
    if first.Some? {
      assert Key(rows[first.value].lyric) == Key(rows[i].lyric);
    }
  }
}
