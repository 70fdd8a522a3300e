// The upload loop of the web page (`process_uploaded_files` in app.py): for
// each uploaded file, in submission order, decide whether to skip it, report
// it as unusable, score it as a new file, score it again because the reward
// settings changed, or move its participants to a new weight; then call the
// ledger and count the outcome. The session settings the page reads
// (`base_score`, `reward_count`, `reward_multiplier`) are a `Settings`
// parameter, and messages on the page are not modelled.

module App {
  import opened Collections
  import opened DataManager
  import ExcelProcessor
  import Text

  // ---------------------------------------------------------------------
  // Weights per file

  /** `file_weights`: the table supplied by the caller, or every uploaded
      file at weight 1 when there is none. */
  function WeightTable(uploads: seq<ExcelProcessor.Upload>, fileWeights: Option<map<string, int>>): map<string, int> {
    if fileWeights.Some? then fileWeights.value
    else map name | name in UploadNames(uploads) :: 1
  }

  function UploadNames(uploads: seq<ExcelProcessor.Upload>): set<string> {
    set u | u in uploads :: u.name
  }

  /** `file_weights.get(name, 1)` */
  function WeightOf(table: map<string, int>, name: string): int {
    if name in table then table[name] else 1
  }

  /** Without a weight table every file, uploaded or not, is weighed 1. */
  lemma NoTableMeansOne(uploads: seq<ExcelProcessor.Upload>, name: string)
    ensures WeightOf(WeightTable(uploads, None), name) == 1
  {
  }

  // ---------------------------------------------------------------------
  // What was done to a file before

  /** The settings a processed file was last scored with. */
  datatype History = History(weight: real, baseScore: real, rewardCount: int, rewardMultiplier: real)

  /** The values assumed when the list has no row for the file. */
  const NoHistory := History(1.0, 1.0, 0, 1.5)

  function HistoryFrom(s: FileSummary): History {
    History(s.weight, s.baseScore, s.rewardCount, s.rewardMultiplier)
  }

  /** `for pf in processed_files: if pf['file_name'] == name: … break`:
      the settings of the first row of the file. */
  function HistoryOf(files: seq<FileSummary>, name: string): History {
    if files == [] then NoHistory
    else if files[0].fileName == name then HistoryFrom(files[0])
    else HistoryOf(files[1..], name)
  }

  /** When every row of the file is `s`, the search finds `s`; when there is
      no row of the file, it finds the defaults. */
  lemma {:induction false} HistoryOfRows(files: seq<FileSummary>, name: string, s: Option<FileSummary>)
    requires forall f :: f in files && f.fileName == name ==> s.Some? && f == s.value
    requires s.Some? ==> s.value in files && s.value.fileName == name
    ensures HistoryOf(files, name) == if s.Some? then HistoryFrom(s.value) else NoHistory
  {
    if files != [] && files[0].fileName != name {
      assert forall f :: f in files[1..] ==> f in files;
      if s.Some? {
        assert s.value != files[0];
        assert s.value in files[1..] by {
          assert files == [files[0]] + files[1..];
        }
      }
      HistoryOfRows(files[1..], name, s);
    }
  }

  /** The settings of the file's registry record as `get_processed_files`
      shows them, or the defaults when there is no record. */
  function Recorded(doc: Document, name: string): History {
    if name in doc.processedFiles.values then HistoryFrom(SummaryOf(name, doc.processedFiles.values[name]))
    else NoHistory
  }

  /** The history the page reads is the file's registry record, with the
      scoring fields a weight-only record lacks read as base score 1.0, no
      reward slots and multiplier 1.0; a file without a record gets
      1 / 1.0 / 0 / 1.5. */
  lemma RegisteredHistory(doc: Document, name: string)
    requires doc.Valid()
    ensures HistoryOf(ProcessedFiles(doc), name) == Recorded(doc, name)
  {
    ProcessedFilesRows(doc);
    var registry := doc.processedFiles;
    if name in registry.values {
      HistoryOfRows(ProcessedFiles(doc), name, Some(SummaryOf(name, registry.values[name])));
    } else {
      HistoryOfRows(ProcessedFiles(doc), name, None);
    }
  }

  // ---------------------------------------------------------------------
  // The decision

  /** `current_weight != historical_weight` */
  predicate WeightChanged(w: int, h: History) {
    w as real != h.weight
  }

  /** A change of base score, reward count or reward multiplier. */
  predicate RewardChanged(cfg: Settings, h: History) {
    cfg.baseScore != h.baseScore || cfg.rewardCount != h.rewardCount || cfg.rewardMultiplier != h.rewardMultiplier
  }

  /** What happens to one uploaded file. */
  datatype Decision =
    | Skip                        // processed before, nothing changed
    | Unsupported                 // the name fails `validate_file_format`
    | Unreadable(message: string) // extraction reported an error
    | NoNicknames                 // extraction found no nickname
    | New                         // `update_scores_with_rewards` on a new file
    | Rescore                     // `update_scores_with_rewards` again: the reward settings changed
    | Reweigh                     // `update_existing_file_scores`: only the weight changed

  predicate CallsLedger(d: Decision) {
    d.New? || d.Rescore? || d.Reweigh?
  }

  /** One uploaded file as the loop sees it: its name, whether the name
      passes `validate_file_format`, and what extraction yields for it.
      Extraction is only looked at for a file that is not skipped and has a
      supported name, where the loop runs it. */
  datatype Turn = Turn(name: string, supported: bool, x: ExcelProcessor.Extraction)

  /** The turn of one upload. */
  function TurnOf(u: ExcelProcessor.Upload): (r: Turn)
    requires u.read.WellFormed()
    ensures r.name == u.name && r.x == ExcelProcessor.ExtractionOf(u.name, u.read)
    ensures r.supported <==> ExcelProcessor.ValidateFileFormat(u.name)
  {
    Turn(u.name, ExcelProcessor.ValidateFileFormat(u.name), ExcelProcessor.ExtractionOf(u.name, u.read))
  }

  /** The turns of a list of uploads. */
  function Turns(uploads: seq<ExcelProcessor.Upload>): (r: seq<Turn>)
    requires ExcelProcessor.AllWellFormed(uploads)
    ensures |r| == |uploads|
    ensures forall i :: 0 <= i < |r| ==> r[i] == TurnOf(uploads[i])
  {
    seq(|uploads|, i requires 0 <= i < |uploads| && uploads[i].read.WellFormed() => TurnOf(uploads[i]))
  }

  /** The decision for file `f` at weight `w` with the session settings
      `cfg`, against the ledger `doc`. The history is read from the registry
      record, which is what the page's scan finds (`RegisteredHistory`). */
  function Decide(doc: Document, f: Turn, w: int, cfg: Settings): Decision
    requires doc.Valid()
  {
    var processed := IsFileProcessed(doc, f.name);
    var h := Recorded(doc, f.name);
    if processed && !WeightChanged(w, h) && !RewardChanged(cfg, h) then Skip
    else if !f.supported then Unsupported
    else if f.x.error != "" then Unreadable(f.x.error)
    else if f.x.nicknames == [] then NoNicknames
    else if processed then (if RewardChanged(cfg, h) then Rescore else Reweigh)
    else New
  }

  /** A file is skipped exactly when it has a registry record whose weight
      and reward settings are those of this upload. */
  lemma SkipExactly(doc: Document, f: Turn, w: int, cfg: Settings)
    requires doc.Valid()
    ensures Decide(doc, f, w, cfg) == Skip <==>
              && f.name in doc.processedFiles.values
              && var h := HistoryFrom(SummaryOf(f.name, doc.processedFiles.values[f.name]));
              && !WeightChanged(w, h) && !RewardChanged(cfg, h)
  {
    doc.processedFiles.KeysListed();
  }

  // ---------------------------------------------------------------------
  // Applying the decision

  /** The counters of the loop: `new_files_count`, `old_files_count`,
      `updated_files_count`, `successful_count`, `total_new_nicknames` and
      `total_weighted_points`. */
  datatype Tally = Tally(newFiles: nat, oldFiles: nat, updatedFiles: nat, successful: nat,
                         nicknames: nat, weightedPoints: int)

  const NoTally := Tally(0, 0, 0, 0, 0, 0)

  /** The counters after a file with `n` nicknames at weight `w`, as the
      loop is written: a processed file whose settings changed is counted as
      updated when the change is seen, and once more when it is dispatched. */
  function CountedAsWritten(t: Tally, d: Decision, processed: bool, n: nat, w: int): (r: Tally)
    ensures r.updatedFiles == t.updatedFiles + (if processed && !d.Skip? then 1 else 0)
                                             + (if d.Rescore? || d.Reweigh? then 1 else 0)
    ensures r.successful == t.successful + (if CallsLedger(d) then 1 else 0)
    ensures r.oldFiles == t.oldFiles + (if d.Skip? then 1 else 0)
  {
    var seen := if processed && !d.Skip? then t.(updatedFiles := t.updatedFiles + 1) else t;
    match d
    case Skip => seen.(oldFiles := seen.oldFiles + 1)
    case New => Succeeded(seen.(newFiles := seen.newFiles + 1), n, w)
    case Rescore => Succeeded(seen.(updatedFiles := seen.updatedFiles + 1), n, w)
    case Reweigh => Succeeded(seen.(updatedFiles := seen.updatedFiles + 1), n, w)
    case _ => seen
  }

  /** A changed file that is dispatched counts as two updated files. */
  lemma UpdatedCountedTwice(n: nat, w: int)
    ensures CountedAsWritten(NoTally, Reweigh, true, n, w).updatedFiles == 2
    ensures CountedAsWritten(NoTally, Reweigh, true, n, w).successful == 1
  {
  }

  function Succeeded(t: Tally, n: nat, w: int): Tally {
    t.(successful := t.successful + 1, nicknames := t.nicknames + n, weightedPoints := t.weightedPoints + n * w)
  }

  /** The counters after a file, each updated file counted once, when it is
      dispatched to the ledger. */
  function Counted(t: Tally, d: Decision, n: nat, w: int): (r: Tally)
    ensures d.Skip? ==> r == t.(oldFiles := t.oldFiles + 1)
    ensures !d.Skip? && !CallsLedger(d) ==> r == t
    ensures CallsLedger(d) ==> r.successful == t.successful + 1 && r.nicknames == t.nicknames + n
    ensures r.newFiles + r.updatedFiles - r.successful == t.newFiles + t.updatedFiles - t.successful
  {
    match d
    case Skip => t.(oldFiles := t.oldFiles + 1)
    case New => Succeeded(t.(newFiles := t.newFiles + 1), n, w)
    case Rescore => Succeeded(t.(updatedFiles := t.updatedFiles + 1), n, w)
    case Reweigh => Succeeded(t.(updatedFiles := t.updatedFiles + 1), n, w)
    case _ => t
  }

  datatype State = State(doc: Document, tally: Tally)

  /** The ledger call a decision asks for, with the extracted lists. */
  function Apply(doc: Document, d: Decision, f: Turn, w: int, cfg: Settings, now: string): (r: Document)
    requires doc.Valid()
    ensures r.Valid()
  {
    match d
    case New => ScoreFile(doc, f.x.nicknames, f.x.times, f.name, Uniform(w), cfg, now).value
    case Rescore => ScoreFile(doc, f.x.nicknames, f.x.times, f.name, Uniform(w), cfg, now).value
    case Reweigh => Reweight(doc, f.x.nicknames, f.name, w, now)
    case _ => doc
  }

  /** One turn of the loop: the decision, the ledger call it asks for, and
      the counters. */
  function Step(s: State, f: Turn, w: int, cfg: Settings, now: string): (r: State)
    requires s.doc.Valid()
    ensures r.doc.Valid()
  {
    var d := Decide(s.doc, f, w, cfg);
    State(Apply(s.doc, d, f, w, cfg, now), Counted(s.tally, d, |f.x.nicknames|, w))
  }

  /** The first `k` files, in submission order; `clock[i]` is the time the
      ledger reads while handling file `i`. */
  function Process(doc: Document, files: seq<Turn>, table: map<string, int>,
                   cfg: Settings, clock: seq<string>, k: nat): (r: State)
    requires doc.Valid() && k <= |files| && |clock| == |files|
    ensures r.doc.Valid()
  {
    if k == 0 then State(doc, NoTally)
    else Step(Process(doc, files, table, cfg, clock, k - 1), files[k - 1], WeightOf(table, files[k - 1].name), cfg, clock[k - 1])
  }

  // ---------------------------------------------------------------------
  // Properties of the rule

  /** A file the rule does not hand to the ledger leaves the ledger as it
      was; a file it hands over is processed afterwards. */
  lemma OnlyDispatchedFilesTouchTheLedger(s: State, f: Turn, w: int, cfg: Settings, now: string)
    requires s.doc.Valid()
    ensures !CallsLedger(Decide(s.doc, f, w, cfg)) ==> Step(s, f, w, cfg, now).doc == s.doc
    ensures CallsLedger(Decide(s.doc, f, w, cfg)) ==> IsFileProcessed(Step(s, f, w, cfg, now).doc, f.name)
  {
    ScoringRegisters(s.doc, f.x.nicknames, f.x.times, f.name, Uniform(w), cfg, now, f.name);
    ReweightRegisters(s.doc, f.x.nicknames, f.name, w, now, f.name);
  }

  /** Uploading the same file again with the same weight and settings right
      after it was scored (new or rescored) is skipped: it is not counted
      twice. */
  lemma ReuploadAfterScoringSkips(s: State, f: Turn, w: int, cfg: Settings, now: string)
    requires s.doc.Valid()
    requires Decide(s.doc, f, w, cfg).New? || Decide(s.doc, f, w, cfg).Rescore?
    ensures Decide(Step(s, f, w, cfg, now).doc, f, w, cfg) == Skip
  {
    ScoreFileRecord(s.doc, f.x.nicknames, f.x.times, f.name, Uniform(w), cfg, now);
    SkipExactly(Step(s, f, w, cfg, now).doc, f, w, cfg);
  }

  /** After a weight-only update the file's record has lost its reward
      settings, which then read as base score 1.0, no reward slots and
      multiplier 1.0. Uploading the same file again with the same weight and
      settings is therefore not skipped unless the settings are exactly those
      values: with the default multiplier 1.5 the file is scored once more and
      its points are appended a second time. */
  lemma ReuploadAfterReweighRescores(s: State, f: Turn, w: int, cfg: Settings, now: string)
    requires s.doc.Valid()
    requires Decide(s.doc, f, w, cfg).Reweigh?
    ensures Decide(Step(s, f, w, cfg, now).doc, f, w, cfg) == Skip <==>
              cfg.baseScore == 1.0 && cfg.rewardCount == 0 && cfg.rewardMultiplier == 1.0
    ensures cfg.rewardMultiplier != 1.0 ==> Decide(Step(s, f, w, cfg, now).doc, f, w, cfg) == Rescore
  {
    var next := Step(s, f, w, cfg, now).doc;
    assert next == Reweight(s.doc, f.x.nicknames, f.name, w, now);
    SkipExactly(next, f, w, cfg);
    ReweightRegisters(s.doc, f.x.nicknames, f.name, w, now, f.name);
  }

  /** Every file that succeeds is counted as new or as updated, and only
      such files are. */
  lemma {:induction false} TallyBalances(doc: Document, files: seq<Turn>, table: map<string, int>,
                                         cfg: Settings, clock: seq<string>, k: nat)
    requires doc.Valid() && k <= |files| && |clock| == |files|
    ensures var t := Process(doc, files, table, cfg, clock, k).tally;
      t.successful == t.newFiles + t.updatedFiles
  {
    if k > 0 {
      TallyBalances(doc, files, table, cfg, clock, k - 1);
    }
  }

  /** A blank cell of a column of dates prints "NaT", which the reward
      ranking takes for a time, so its user is ranked; a blank cell of any
      other column prints "nan" and its user is not ranked. */
  lemma BlankTimeCells()
    ensures HasTime(ExcelProcessor.TimeText(Some(ExcelProcessor.Missing(ExcelProcessor.NaT))))
    ensures !HasTime(ExcelProcessor.TimeText(Some(ExcelProcessor.Missing(ExcelProcessor.NaN))))
  {
    Text.StripTrimmed("NaT");
  }

  // ---------------------------------------------------------------------
  // The reported total of a file

  /** The total shown for a file of `n` nicknames at weight `w` of which
      `rewarded` were rewarded: `basic = base_score × weight`, rewarded rows
      at `reward_multiplier × basic`. */
  function ReportedTotal(n: nat, rewarded: nat, w: int, cfg: Settings): (r: real)
    ensures var basic := cfg.baseScore * w as real;
      r == n as real * basic + rewarded as real * (cfg.rewardMultiplier - 1.0) * basic
  {
    var basic := cfg.baseScore * w as real;
    if rewarded > 0 then (n - rewarded) as real * basic + rewarded as real * (cfg.rewardMultiplier * basic)
    else n as real * basic
  }

  /** The total shown for a file with at least one nickname equals the
      `total_points` written to its record by the scoring pass. */
  lemma ReportedTotalIsRecorded(n: nat, rewarded: nat, w: int, cfg: Settings)
    requires n > 0
    ensures ReportedTotal(n, rewarded, w, cfg) == TotalPoints(seq(n, _ => w), cfg, rewarded)
  {
    var ws := seq(n, _ => w);
    UniformSum(n, w);
    UniformBaseTotal(cfg.baseScore, n, w);
    assert (n * w) as real == n as real * w as real;
    assert Average(ws) == w as real;
  }

  // ---------------------------------------------------------------------
  // The loop

  /** One uploaded file: the skip test and the format check, extraction,
      then the ledger call the lifted decision asks for, and the counters. */
  method ProcessFile(ledger: Ledger, u: ExcelProcessor.Upload, w: int, cfg: Settings, now: string, t: Tally)
    returns (next: Tally)
    requires ledger.Valid() && u.read.WellFormed()
    modifies ledger
    ensures ledger.Valid()
    ensures State(ledger.Doc(), next)
              == Step(State(old(ledger.Doc()), t), TurnOf(u), w, cfg, now)
  {
    var doc := ledger.Doc();
    var h := Recorded(doc, u.name);
    if IsFileProcessed(doc, u.name) && !WeightChanged(w, h) && !RewardChanged(cfg, h) {
      return t.(oldFiles := t.oldFiles + 1);
    }
    if !ExcelProcessor.ValidateFileFormat(u.name) {
      return t;
    }
    var x := ExcelProcessor.ExtractNicknamesAndTimes(u.name, u.read);
    var f := Turn(u.name, true, x);
    var d := Decide(doc, f, w, cfg);
    Dispatch(ledger, d, f, w, cfg, now);
    next := Counted(t, d, |x.nicknames|, w);
  }

  /** The ledger call of a decision. */
  method Dispatch(ledger: Ledger, d: Decision, f: Turn, w: int, cfg: Settings, now: string)
    requires ledger.Valid()
    modifies ledger
    ensures ledger.Valid()
    ensures ledger.Doc() == Apply(old(ledger.Doc()), d, f, w, cfg, now)
  {
    match d {
      case New =>
        var _ := ledger.UpdateScoresWithRewards(f.x.nicknames, f.x.times, f.name, Uniform(w), cfg, now);
      case Rescore =>
        var _ := ledger.UpdateScoresWithRewards(f.x.nicknames, f.x.times, f.name, Uniform(w), cfg, now);
      case Reweigh =>
        ledger.UpdateExistingFileScores(f.x.nicknames, f.name, w, now);
      case _ =>
    }
  }

  /** `process_uploaded_files`: the files one at a time, in submission order.
      `clock` holds the clock readings of the ledger calls, one per file. */
  method ProcessUploadedFiles(ledger: Ledger, uploads: seq<ExcelProcessor.Upload>,
                              fileWeights: Option<map<string, int>>, cfg: Settings, clock: seq<string>)
    returns (tally: Tally)
    requires ledger.Valid() && ExcelProcessor.AllWellFormed(uploads) && |clock| == |uploads|
    modifies ledger
    ensures ledger.Valid()
    ensures State(ledger.Doc(), tally)
              == Process(old(ledger.Doc()), Turns(uploads), WeightTable(uploads, fileWeights), cfg, clock, |uploads|)
  {
    tally := NoTally;
    if uploads == [] {
      return;
    }
    var table := WeightTable(uploads, fileWeights);
    ghost var start := ledger.Doc();
    ghost var files := Turns(uploads);
    for i := 0 to |uploads|
      invariant ledger.Valid()
      invariant State(ledger.Doc(), tally) == Process(start, files, table, cfg, clock, i)
    {
      tally := ProcessFile(ledger, uploads[i], WeightOf(table, uploads[i].name), cfg, clock[i], tally);
    }
  }
}
