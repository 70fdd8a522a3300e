// The scoring ledger of `DataManager`: who has how many points, from which
// files, and which files have been processed. The JSON file the source loads
// and saves around every operation is replaced by an in-memory document held
// by the class `Ledger`; the clock is a `now` parameter.

module DataManager {
  import opened Collections
  import opened Sorting
  import opened Text

  // ---------------------------------------------------------------------
  // The document

  /** One line of a participant's `files` history. Lines written by the
      weight-only update carry no `base_score` and no `is_rewarded`. */
  datatype Contribution = Contribution(fileName: string, date: string, weight: int,
                                       baseScore: Option<real>, points: real,
                                       isRewarded: Option<bool>)

  /** `records[nickname]`: the running score and the history behind it. */
  datatype Participant = Participant(score: real, files: seq<Contribution>)

  /** `processed_files[file_name]`: the full record of a scoring pass, or the
      four fields the weight-only update writes. */
  datatype FileRecord =
    | Scored(processedDate: string, nicknamesCount: nat, weight: real, weights: seq<int>,
             baseScore: real, totalPoints: real, rewardCount: int, rewardMultiplier: real,
             rewardedUsers: set<string>)
    | Reweighted(processedDate: string, nicknamesCount: nat, weight: real, totalPoints: real)

  /** The JSON document of one session. */
  datatype Document = Document(records: OrderedMap<Participant>,
                               processedFiles: OrderedMap<FileRecord>,
                               lastUpdated: string, totalFilesProcessed: int) {
    predicate Valid() {
      records.Valid() && processedFiles.Valid()
    }
  }

  /** The document a new session starts from, and the one `load_data` falls
      back to when the file is missing or is not valid JSON. */
  function EmptyDocument(now: string): (d: Document)
    ensures d.Valid()
    ensures d.records.values == map[] && d.processedFiles.values == map[]
    ensures d.totalFilesProcessed == 0
  {
    Document(EmptyMap(), EmptyMap(), now, 0)
  }

  /** The scoring settings of an upload: `base_score`, `reward_count`,
      `reward_multiplier`. */
  datatype Settings = Settings(baseScore: real, rewardCount: int, rewardMultiplier: real)

  // ---------------------------------------------------------------------
  // Weights

  /** The `weight` argument: one int for every row, or a list of per-row ints. */
  datatype WeightArg = Uniform(w: int) | PerRow(ws: seq<int>)

  /** The `ValueError` raised when a weight list does not fit the rows. */
  datatype WeightMismatch = WeightMismatch(weights: nat, nicknames: nat)

  /** One weight per row: an int is repeated, a list must have one entry per
      nickname. */
  function Weights(arg: WeightArg, n: nat): (r: Result<seq<int>, WeightMismatch>)
    ensures r.Success? ==> |r.value| == n
    ensures arg.Uniform? ==> r.Success? && forall i :: 0 <= i < n ==> r.value[i] == arg.w
    ensures arg.PerRow? ==> (r.Success? <==> |arg.ws| == n)
    ensures arg.PerRow? && r.Success? ==> r.value == arg.ws
  {
    match arg
    case Uniform(w) => Success(seq(n, _ => w))
    case PerRow(ws) => if |ws| != n then Failure(WeightMismatch(|ws|, n)) else Success(ws)
  }

  function Sum(ws: seq<int>): int {
    if ws == [] then 0 else Sum(ws[..|ws| - 1]) + ws[|ws| - 1]
  }

  /** `sum(weights) / len(weights) if weights else 1` */
  function Average(ws: seq<int>): real {
    if ws == [] then 1.0 else Sum(ws) as real / |ws| as real
  }

  /** `sum(base_score * w for w in weights)` */
  function BaseTotal(base: real, ws: seq<int>): real {
    if ws == [] then 0.0 else BaseTotal(base, ws[..|ws| - 1]) + base * ws[|ws| - 1] as real
  }

  // ---------------------------------------------------------------------
  // Who is rewarded

  type Stamp = (string, string)

  const Nan := "nan"

  /** A time that takes part in the reward ranking: non-empty, not blank,
      and not pandas' text for an empty cell. */
  predicate HasTime(t: string) {
    t != [] && Strip(t) != [] && t != Nan
  }

  /** `zip(nicknames, times)`, which stops at the shorter list. */
  function Zip(a: seq<string>, b: seq<string>): (r: seq<Stamp>)
    ensures |r| <= |a| && |r| <= |b|
    ensures forall i :: 0 <= i < |r| ==> r[i] == (a[i], b[i])
  {
    seq(if |a| < |b| then |a| else |b|, i requires 0 <= i < |a| && i < |b| => (a[i], b[i]))
  }

  /** The pairs whose time takes part, in row order: every timed pair and
      nothing else (the order is `StampedAppend`). */
  function Stamped(pairs: seq<Stamp>): (r: seq<Stamp>)
    ensures |r| <= |pairs|
    ensures forall p :: p in r ==> p in pairs && HasTime(p.1)
    ensures forall i :: 0 <= i < |pairs| && HasTime(pairs[i].1) ==> pairs[i] in r
  {
    if pairs == [] then []
    else
      var last := pairs[|pairs| - 1];
      Stamped(pairs[..|pairs| - 1]) + (if HasTime(last.1) then [last] else [])
  }

  /** Filtering keeps the row order: the timed pairs of two consecutive
      stretches of rows are those of the first, then those of the second. */
  lemma {:induction false} StampedAppend(a: seq<Stamp>, b: seq<Stamp>)
    ensures Stamped(a + b) == Stamped(a) + Stamped(b)
  {
    if b == [] {
      assert a + b == a;
    } else {
      var init, last := b[..|b| - 1], b[|b| - 1];
      var tail := if HasTime(last.1) then [last] else [];
      calc {
        Stamped(a + b);
        { assert (a + b)[..|a + b| - 1] == a + init; assert (a + b)[|a + b| - 1] == last; }
        Stamped(a + init) + tail;
        { StampedAppend(a, init); }
        Stamped(a) + Stamped(init) + tail;
        Stamped(a) + (Stamped(init) + tail);
      }
    }
  }

  /** With distinct nicknames the zipped pairs are distinct. */
  lemma ZipDistinct(a: seq<string>, b: seq<string>)
    requires Distinct(a)
    ensures Distinct(Zip(a, b))
  {
  }

  /** Filtering keeps a list without repetitions free of them. */
  lemma {:induction false} StampedDistinct(pairs: seq<Stamp>)
    requires Distinct(pairs)
    ensures Distinct(Stamped(pairs))
  {
    if pairs != [] {
      var init := pairs[..|pairs| - 1];
      assert Distinct(init);
      StampedDistinct(init);
      assert pairs[|pairs| - 1] !in init;
    }
  }

  /** A timed pair exists only when some time is non-empty. */
  lemma StampedNeedsTime(nicknames: seq<string>, times: seq<string>)
    ensures Stamped(Zip(nicknames, times)) != [] ==>
              times != [] && exists i :: 0 <= i < |times| && times[i] != []
  {
    var zip := Zip(nicknames, times);
    if Stamped(zip) != [] {
      var p := Stamped(zip)[0];
      var i :| 0 <= i < |zip| && zip[i] == p;
      assert times[i] != [];
    }
  }

  /** `time_pairs.sort(key=lambda x: str(x[1]))`: stable, ascending. */
  function TimeOf(p: Stamp): string { p.1 }

  function ByTime(pairs: seq<Stamp>): seq<Stamp> {
    SortBy(TimeOf, (a: string, b: string) => LexLe(a, b), pairs)
  }

  predicate TimeOrdered(t: seq<Stamp>) {
    forall i, j :: 0 <= i < j < |t| ==> LexLe(t[i].1, t[j].1)
  }

  /** The sort orders the pairs by time, keeps every pair, and keeps pairs
      with equal times in row order (which decides a tie for the last
      rewarded place). */
  lemma ByTimeSorts(pairs: seq<Stamp>)
    ensures TimeOrdered(ByTime(pairs))
    ensures multiset(ByTime(pairs)) == multiset(pairs) && |ByTime(pairs)| == |pairs|
    ensures forall t :: WithKey(TimeOf, ByTime(pairs), t) == WithKey(TimeOf, pairs, t)
  {
    LexLeTotalPreorder();
    SortByCorrect(TimeOf, (a: string, b: string) => LexLe(a, b), pairs);
  }

  /** The nicknames of a list of pairs, as a set. */
  function NamesOf(pairs: seq<Stamp>): (r: set<string>)
    ensures forall i :: 0 <= i < |pairs| ==> pairs[i].0 in r
  {
    if pairs == [] then {}
    else NamesOf(pairs[..|pairs| - 1]) + {pairs[|pairs| - 1].0}
  }

  lemma {:induction false} NamesOfMember(pairs: seq<Stamp>, x: string)
    requires x in NamesOf(pairs)
    ensures exists i :: 0 <= i < |pairs| && pairs[i].0 == x
  {
    var n := |pairs| - 1;
    if x != pairs[n].0 {
      NamesOfMember(pairs[..n], x);
      var i :| 0 <= i < n && pairs[..n][i].0 == x;
      assert pairs[i].0 == x;
    }
  }

  lemma {:induction false} NamesOfCardinality(pairs: seq<Stamp>)
    ensures |NamesOf(pairs)| <= |pairs|
  {
    if pairs != [] {
      NamesOfCardinality(pairs[..|pairs| - 1]);
    }
  }

  /** `reward_users`: when rewards are on and some time is non-empty, the
      nicknames of the first `reward_count` timed pairs in ascending time
      order; otherwise nobody. */
  function Rewarded(nicknames: seq<string>, times: seq<string>, rewardCount: int): set<string> {
    if rewardCount > 0 && times != [] && (exists i :: 0 <= i < |times| && times[i] != []) then
      var sorted := ByTime(Stamped(Zip(nicknames, times)));
      NamesOf(sorted[..if rewardCount < |sorted| then rewardCount else |sorted|])
    else {}
  }

  /** The reward set is bounded by `reward_count`, empty unless rewards are on
      and some time is given, drawn from the nicknames, and earliest-first: with
      distinct nicknames, every rewarded user's time comes no later than the
      time of any timed user left out. */
  lemma RewardedChoice(nicknames: seq<string>, times: seq<string>, rewardCount: int)
    ensures var r := Rewarded(nicknames, times, rewardCount);
      && |r| <= (if rewardCount > 0 then rewardCount else 0)
      && (r != {} ==> rewardCount > 0 && exists i :: 0 <= i < |times| && times[i] != [])
      && (forall x :: x in r ==> x in nicknames)
  {
    var r := Rewarded(nicknames, times, rewardCount);
    if rewardCount > 0 && times != [] && (exists i :: 0 <= i < |times| && times[i] != []) {
      var stamped := Stamped(Zip(nicknames, times));
      var sorted := ByTime(stamped);
      ByTimeSorts(stamped);
      var m := if rewardCount < |sorted| then rewardCount else |sorted|;
      NamesOfCardinality(sorted[..m]);
      forall x | x in r ensures x in nicknames {
        NamesOfMember(sorted[..m], x);
        var i :| 0 <= i < m && sorted[..m][i].0 == x;
        assert sorted[i] in multiset(stamped);
        assert sorted[i] in stamped;
        var j :| 0 <= j < |Zip(nicknames, times)| && Zip(nicknames, times)[j] == sorted[i];
      }
    }
  }

  /** With distinct nicknames, exactly `reward_count` users are rewarded, or
      every timed user when there are fewer of them. */
  lemma RewardedCount(nicknames: seq<string>, times: seq<string>, rewardCount: int)
    requires Distinct(nicknames)
    ensures var timed := |Stamped(Zip(nicknames, times))|;
      |Rewarded(nicknames, times, rewardCount)|
        == if rewardCount <= 0 then 0 else if rewardCount < timed then rewardCount else timed
  {
    StampedNeedsTime(nicknames, times);
    if rewardCount > 0 && times != [] && (exists i :: 0 <= i < |times| && times[i] != []) {
      var stamped := Stamped(Zip(nicknames, times));
      var sorted := ByTime(stamped);
      ByTimeSorts(stamped);
      ZipDistinct(nicknames, times);
      StampedDistinct(Zip(nicknames, times));
      DistinctPermutation(stamped, sorted);
      var m := if rewardCount < |sorted| then rewardCount else |sorted|;
      var top := sorted[..m];
      forall i, j | 0 <= i < j < |top| ensures top[i].0 != top[j].0 {
        if top[i].0 == top[j].0 {
          assert sorted[i] in multiset(stamped) && sorted[j] in multiset(stamped);
          SameName(nicknames, times, sorted[i], sorted[j]);
        }
      }
      NamesOfDistinct(top);
    }
  }

  /** A list of pairs whose nicknames differ names as many users as it has
      pairs. */
  lemma {:induction false} NamesOfDistinct(t: seq<Stamp>)
    requires forall i, j :: 0 <= i < j < |t| ==> t[i].0 != t[j].0
    ensures |NamesOf(t)| == |t|
  {
    if t != [] {
      var init := t[..|t| - 1];
      NamesOfDistinct(init);
      if t[|t| - 1].0 in NamesOf(init) {
        NamesOfMember(init, t[|t| - 1].0);
      }
    }
  }

  /** Earliest first: with distinct nicknames, a rewarded user's timed pair
      sorts no later than the pair of any timed user who is not rewarded. */
  lemma RewardedEarliest(nicknames: seq<string>, times: seq<string>, rewardCount: int, p: Stamp, q: Stamp)
    requires Distinct(nicknames)
    requires p in Stamped(Zip(nicknames, times)) && q in Stamped(Zip(nicknames, times))
    requires p.0 in Rewarded(nicknames, times, rewardCount)
    requires q.0 !in Rewarded(nicknames, times, rewardCount)
    ensures LexLe(p.1, q.1)
  {
    var stamped := Stamped(Zip(nicknames, times));
    var sorted := ByTime(stamped);
    ByTimeSorts(stamped);
    var m := if rewardCount < |sorted| then rewardCount else |sorted|;
    NamesOfMember(sorted[..m], p.0);
    var i :| 0 <= i < m && sorted[..m][i].0 == p.0;
    assert sorted[i] in multiset(stamped);
    SameName(nicknames, times, sorted[i], p);
    assert p in sorted[..m];
    assert q in multiset(sorted);
    PrefixFirst(sorted, m, p, q);
  }

  /** In a time-ordered list, a pair among the first `m` sorts no later than
      any pair whose nickname does not occur among them. */
  lemma PrefixFirst(t: seq<Stamp>, m: nat, a: Stamp, b: Stamp)
    requires TimeOrdered(t) && m <= |t|
    requires a in t[..m] && b in t && b.0 !in NamesOf(t[..m])
    ensures LexLe(a.1, b.1)
  {
    var i :| 0 <= i < m && t[..m][i] == a;
    var j :| 0 <= j < |t| && t[j] == b;
    assert j >= m;
  }

  /** With distinct nicknames, two timed pairs with the same nickname are the
      same pair. */
  lemma SameName(nicknames: seq<string>, times: seq<string>, a: Stamp, b: Stamp)
    requires Distinct(nicknames)
    requires a in Stamped(Zip(nicknames, times)) && b in Stamped(Zip(nicknames, times))
    requires a.0 == b.0
    ensures a == b
  {
    assert a in Zip(nicknames, times) && b in Zip(nicknames, times);
    SameNameZipped(nicknames, times, a, b);
  }

  lemma SameNameZipped(nicknames: seq<string>, times: seq<string>, a: Stamp, b: Stamp)
    requires Distinct(nicknames)
    requires a in Zip(nicknames, times) && b in Zip(nicknames, times)
    requires a.0 == b.0
    ensures a == b
  {
    var zip := Zip(nicknames, times);
    var i :| 0 <= i < |zip| && zip[i] == a;
    var j :| 0 <= j < |zip| && zip[j] == b;
    assert nicknames[i] == nicknames[j];
  }

  // ---------------------------------------------------------------------
  // A scoring pass (`update_scores_with_rewards`)

  /** What a scoring pass writes into every line, fixed before its loop. */
  datatype Pass = Pass(fileName: string, now: string, cfg: Settings, rewarded: set<string>)

  /** The points of one row: `base_score × w`, multiplied by
      `reward_multiplier` for a rewarded user. */
  function RowPoints(cfg: Settings, w: int, rewarded: bool): real {
    if rewarded then cfg.rewardMultiplier * (cfg.baseScore * w as real) else cfg.baseScore * w as real
  }

  /** The history line a pass appends for the stripped nickname `name`. */
  function Line(p: Pass, name: string, w: int): Contribution {
    var hit := name in p.rewarded;
    Contribution(p.fileName, p.now, w, Some(p.cfg.baseScore), RowPoints(p.cfg, w, hit), Some(hit))
  }

  /** A participant as a pass finds it; someone new has no score and no history. */
  function Find(records: OrderedMap<Participant>, name: string): Participant {
    if name in records.values then records.values[name] else Participant(0.0, [])
  }

  /** `score += points; files.append(line)`, or a new participant holding the
      line. */
  function Credit(records: OrderedMap<Participant>, name: string, c: Contribution): OrderedMap<Participant> {
    var p := Find(records, name);
    records.Put(name, Participant(p.score + c.points, p.files + [c]))
  }

  /** The two branches of crediting: an existing participant's score and
      history grow, a new participant starts from the line alone. */
  lemma CreditCases(records: OrderedMap<Participant>, name: string, c: Contribution)
    ensures name in records.values ==>
      Credit(records, name, c)
        == records.Put(name, Participant(records.values[name].score + c.points, records.values[name].files + [c]))
    ensures name !in records.values ==> Credit(records, name, c) == records.Put(name, Participant(c.points, [c]))
  {
    assert [] + [c] == [c];
  }

  /** One row of a pass: the stripped nickname and the line it would earn. */
  datatype Row = Row(name: string, line: Contribution)

  /** Row `nickname` of a pass with weight `w`: `nickname.strip()` and its line. */
  function RowOf(p: Pass, nickname: string, w: int): Row {
    var name := Strip(nickname);
    Row(name, Line(p, name, w))
  }

  /** The rows of a pass over `nicknames`, each with its weight's line. */
  function PassRows(p: Pass, nicknames: seq<string>, ws: seq<int>): (r: seq<Row>)
    requires |ws| == |nicknames|
    ensures |r| == |nicknames|
    ensures forall i :: 0 <= i < |r| ==> r[i] == RowOf(p, nicknames[i], ws[i])
  {
    seq(|nicknames|, i requires 0 <= i < |nicknames| => RowOf(p, nicknames[i], ws[i]))
  }

  /** One row credited: a blank name is skipped. */
  function CreditRow(records: OrderedMap<Participant>, row: Row): OrderedMap<Participant> {
    if row.name == [] then records else Credit(records, row.name, row.line)
  }

  /** The first `k` rows credited in order; rows with a blank name are
      skipped. */
  function CreditRows(records: OrderedMap<Participant>, rows: seq<Row>, k: nat): OrderedMap<Participant>
    requires k <= |rows|
  {
    if k == 0 then records else CreditRow(CreditRows(records, rows, k - 1), rows[k - 1])
  }

  /** The row credits `name`: it carries that nickname and is not blank. */
  predicate Names(row: Row, name: string) {
    row.name != [] && row.name == name
  }

  /** The lines the first `k` rows append to `name`'s history: one per row
      that names it, in row order. */
  function LinesFor(name: string, rows: seq<Row>, k: nat): seq<Contribution>
    requires k <= |rows|
  {
    if k == 0 then []
    else if Names(rows[k - 1], name) then LinesFor(name, rows, k - 1) + [rows[k - 1].line]
    else LinesFor(name, rows, k - 1)
  }

  function SumPoints(files: seq<Contribution>): real {
    if files == [] then 0.0 else SumPoints(files[..|files| - 1]) + files[|files| - 1].points
  }

  lemma SumPointsSnoc(files: seq<Contribution>, c: Contribution)
    ensures SumPoints(files + [c]) == SumPoints(files) + c.points
  {
    assert (files + [c])[..|files|] == files;
  }

  lemma {:induction false} SumPointsAppend(a: seq<Contribution>, b: seq<Contribution>)
    ensures SumPoints(a + b) == SumPoints(a) + SumPoints(b)
  {
    if b != [] {
      var n := |b| - 1;
      assert (a + b)[..|a + b| - 1] == a + b[..n];
      SumPointsAppend(a, b[..n]);
    } else {
      assert a + b == a;
    }
  }

  /** Crediting one row touches only the participant it names: that one's
      score grows by the line's points and the line is appended to its
      history; a new participant is listed after the known ones. */
  lemma CreditRowStep(prev: OrderedMap<Participant>, row: Row, x: string)
    ensures var after := CreditRow(prev, row);
      && (Names(row, x) ==> Find(after, x).score == Find(prev, x).score + row.line.points)
      && (Names(row, x) ==> Find(after, x).files == Find(prev, x).files + [row.line])
      && (!Names(row, x) ==> Find(after, x) == Find(prev, x))
      && (x in after.values <==> x in prev.values || Names(row, x))
      && prev.keys <= after.keys
  {
  }

  /** Crediting only appends: every participant's history becomes its old
      history followed by exactly the lines of the rows that name it. */
  lemma {:induction false} CreditRowsHistory(records: OrderedMap<Participant>, rows: seq<Row>, k: nat, x: string)
    requires k <= |rows|
    ensures Find(CreditRows(records, rows, k), x).files == Find(records, x).files + LinesFor(x, rows, k)
  {
    if k == 0 {
      assert Find(records, x).files + [] == Find(records, x).files;
    } else {
      CreditRowsHistory(records, rows, k - 1, x);
      CreditRowStep(CreditRows(records, rows, k - 1), rows[k - 1], x);
      if Names(rows[k - 1], x) {
        var before := Find(records, x).files;
        assert before + LinesFor(x, rows, k - 1) + [rows[k - 1].line] == before + (LinesFor(x, rows, k - 1) + [rows[k - 1].line]);
      }
    }
  }

  /** A participant's score grows by exactly the points of the lines the rows
      append to its history. */
  lemma {:induction false} CreditRowsScore(records: OrderedMap<Participant>, rows: seq<Row>, k: nat, x: string)
    requires k <= |rows|
    ensures Find(CreditRows(records, rows, k), x).score == Find(records, x).score + SumPoints(LinesFor(x, rows, k))
  {
    if k != 0 {
      CreditRowsScore(records, rows, k - 1, x);
      CreditRowStep(CreditRows(records, rows, k - 1), rows[k - 1], x);
      if Names(rows[k - 1], x) {
        SumPointsSnoc(LinesFor(x, rows, k - 1), rows[k - 1].line);
      }
    }
  }

  /** A participant is there after crediting iff it was there before or some
      row names it. */
  lemma {:induction false} CreditRowsMembers(records: OrderedMap<Participant>, rows: seq<Row>, k: nat, x: string)
    requires k <= |rows|
    ensures x in CreditRows(records, rows, k).values <==> x in records.values || LinesFor(x, rows, k) != []
  {
    if k != 0 {
      CreditRowsMembers(records, rows, k - 1, x);
      CreditRowStep(CreditRows(records, rows, k - 1), rows[k - 1], x);
    }
  }

  /** The participants known before crediting keep their places in
      `records`; the ones it adds come after them. */
  lemma {:induction false} CreditRowsKeepsOrder(records: OrderedMap<Participant>, rows: seq<Row>, k: nat)
    requires k <= |rows|
    ensures records.keys <= CreditRows(records, rows, k).keys
  {
    if k != 0 {
      var prev := CreditRows(records, rows, k - 1);
      CreditRowsKeepsOrder(records, rows, k - 1);
      CreditRowStep(prev, rows[k - 1], rows[k - 1].name);
      assert forall i :: 0 <= i < |records.keys| ==> records.keys[i] == prev.keys[i] == CreditRow(prev, rows[k - 1]).keys[i];
    }
  }

  /** Crediting keeps every nickname listed exactly once in `records`. */
  lemma {:induction false} CreditRowsValid(records: OrderedMap<Participant>, rows: seq<Row>, k: nat)
    requires records.Valid() && k <= |rows|
    ensures CreditRows(records, rows, k).Valid()
  {
    if k != 0 {
      CreditRowsValid(records, rows, k - 1);
      var prev, row := CreditRows(records, rows, k - 1), rows[k - 1];
      if row.name != [] {
        var p := Find(prev, row.name);
        prev.PutValid(row.name, Participant(p.score + row.line.points, p.files + [row.line]));
      }
    }
  }

  /** Score conservation: every score is the sum of the points in its history. */
  predicate Conserved(records: OrderedMap<Participant>) {
    forall x :: x in records.values ==> records.values[x].score == SumPoints(records.values[x].files)
  }

  /** A scoring pass keeps every score equal to the sum of its history. */
  lemma CreditRowsConserves(records: OrderedMap<Participant>, rows: seq<Row>)
    requires Conserved(records)
    ensures Conserved(CreditRows(records, rows, |rows|))
  {
    var after := CreditRows(records, rows, |rows|);
    forall x | x in after.values
      ensures after.values[x].score == SumPoints(after.values[x].files)
    {
      CreditRowsHistory(records, rows, |rows|, x);
      CreditRowsScore(records, rows, |rows|, x);
      CreditRowsMembers(records, rows, |rows|, x);
      SumPointsAppend(Find(records, x).files, LinesFor(x, rows, |rows|));
    }
  }

  /** `total_points` of the registry record. */
  function TotalPoints(ws: seq<int>, cfg: Settings, rewardedCount: nat): real {
    BaseTotal(cfg.baseScore, ws)
      + rewardedCount as real * Average(ws) * cfg.baseScore * (cfg.rewardMultiplier - 1.0)
  }

  /** `update_scores_with_rewards` on the document: refused without a change
      when a weight list does not fit; otherwise the registry entry of the file
      is overwritten, every non-blank row is credited, the processed-file
      counter grows by one (also for a file seen before) and the document is
      stamped `now`. */
  function ScoreFile(doc: Document, nicknames: seq<string>, times: seq<string>, fileName: string,
                     weight: WeightArg, cfg: Settings, now: string): (r: Result<Document, WeightMismatch>)
    requires doc.Valid()
    ensures r.Failure? <==> weight.PerRow? && |weight.ws| != |nicknames|
    ensures r.Success? ==> r.value.Valid()
    ensures r.Success? ==> r.value.processedFiles.values.Keys == doc.processedFiles.values.Keys + {fileName}
    ensures r.Success? ==> r.value.totalFilesProcessed == doc.totalFilesProcessed + 1
  {
    match Weights(weight, |nicknames|)
    case Failure(e) => Failure(e)
    case Success(ws) => Success(ScoreWith(doc, nicknames, times, fileName, weight, cfg, now, ws))
  }

  /** The document a scoring pass saves once the weights `ws` are known. */
  function ScoreWith(doc: Document, nicknames: seq<string>, times: seq<string>, fileName: string,
                     weight: WeightArg, cfg: Settings, now: string, ws: seq<int>): (r: Document)
    requires doc.Valid() && |ws| == |nicknames|
    ensures r.Valid()
    ensures r.processedFiles.values.Keys == doc.processedFiles.values.Keys + {fileName}
    ensures r.totalFilesProcessed == doc.totalFilesProcessed + 1
  {
    var rewarded := Rewarded(nicknames, times, cfg.rewardCount);
    var record := Scored(now, |nicknames|, if weight.Uniform? then weight.w as real else Average(ws), ws,
                         cfg.baseScore, TotalPoints(ws, cfg, |rewarded|), cfg.rewardCount,
                         cfg.rewardMultiplier, rewarded);
    var rows := PassRows(Pass(fileName, now, cfg, rewarded), nicknames, ws);
    CreditRowsValid(doc.records, rows, |rows|);
    doc.processedFiles.PutValid(fileName, record);
    Document(CreditRows(doc.records, rows, |nicknames|),
             doc.processedFiles.Put(fileName, record), now, doc.totalFilesProcessed + 1)
  }

  /** A scoring pass preserves score conservation. */
  lemma ScoreFileConserves(doc: Document, nicknames: seq<string>, times: seq<string>, fileName: string,
                           weight: WeightArg, cfg: Settings, now: string)
    requires doc.Valid() && Conserved(doc.records)
    ensures var r := ScoreFile(doc, nicknames, times, fileName, weight, cfg, now);
      r.Success? ==> Conserved(r.value.records)
  {
    var r := Weights(weight, |nicknames|);
    if r.Success? {
      var p := Pass(fileName, now, cfg, Rewarded(nicknames, times, cfg.rewardCount));
      CreditRowsConserves(doc.records, PassRows(p, nicknames, r.value));
    }
  }

  /** `ScoreFile` once the weights are known. */
  lemma ScoreFileWith(doc: Document, nicknames: seq<string>, times: seq<string>, fileName: string,
                      weight: WeightArg, cfg: Settings, now: string, ws: seq<int>)
    requires doc.Valid() && |ws| == |nicknames|
    requires weight.Uniform? ==> ws == seq(|nicknames|, _ => weight.w)
    requires weight.PerRow? ==> ws == weight.ws
    ensures ScoreFile(doc, nicknames, times, fileName, weight, cfg, now)
      == Success(ScoreWith(doc, nicknames, times, fileName, weight, cfg, now, ws))
  {
    assert Weights(weight, |nicknames|) == Success(ws);
  }

  /** One row of the loop: an existing participant's score grows by the
      line's points and the line is appended to its history; someone new
      starts with the line alone. */
  method CreditLine(people: OrderedMap<Participant>, name: string, line: Contribution)
    returns (after: OrderedMap<Participant>)
    ensures after == Credit(people, name, line)
  {
    CreditCases(people, name, line);
    if name in people.values {
      var entry := people.values[name];
      after := people.Put(name, Participant(entry.score + line.points, entry.files + [line]));
    } else {
      after := people.Put(name, Participant(line.points, [line]));
    }
  }

  /** The line of one non-blank row: `base_score × w`, times
      `reward_multiplier` for a rewarded user. */
  method ScoreRow(p: Pass, name: string, w: int) returns (line: Contribution)
    ensures line == Line(p, name, w)
  {
    var hit := name in p.rewarded;
    var basic := p.cfg.baseScore * w as real;
    var points := if hit then p.cfg.rewardMultiplier * basic else basic;
    line := Contribution(p.fileName, p.now, w, Some(p.cfg.baseScore), points, Some(hit));
  }

  /** One iteration of the loop: a non-blank stripped nickname earns its
      line, a blank one is skipped. */
  method CreditNickname(people: OrderedMap<Participant>, p: Pass, nickname: string, w: int)
    returns (after: OrderedMap<Participant>)
    ensures after == CreditRow(people, RowOf(p, nickname, w))
  {
    var name := Strip(nickname);
    if name != [] {
      var line := ScoreRow(p, name, w);
      after := CreditLine(people, name, line);
    } else {
      after := people;
    }
  }

  /** The loop of `update_scores_with_rewards` over `enumerate(nicknames)`:
      every non-blank stripped nickname earns its row's points and gets one
      history line. */
  method CreditNicknames(records: OrderedMap<Participant>, nicknames: seq<string>, ws: seq<int>, p: Pass)
    returns (people: OrderedMap<Participant>)
    requires |ws| == |nicknames|
    ensures people == CreditRows(records, PassRows(p, nicknames, ws), |nicknames|)
  {
    ghost var rows := PassRows(p, nicknames, ws);
    people := records;
    for idx := 0 to |nicknames|
      invariant people == CreditRows(records, rows, idx)
    {
      people := CreditNickname(people, p, nicknames[idx], ws[idx]);
    }
  }

  /** The body of `update_scores_with_rewards` once the weights are known:
      pick the rewarded users, credit every row, overwrite the file's record
      and count the file. */
  method ScorePass(doc: Document, nicknames: seq<string>, times: seq<string>, fileName: string,
                   weight: WeightArg, cfg: Settings, now: string, ws: seq<int>)
    returns (next: Document, rewardedCount: nat)
    requires doc.Valid() && |ws| == |nicknames|
    ensures next == ScoreWith(doc, nicknames, times, fileName, weight, cfg, now, ws)
    ensures rewardedCount == |Rewarded(nicknames, times, cfg.rewardCount)|
  {
    var rewarded := Rewarded(nicknames, times, cfg.rewardCount);
    var people := CreditNicknames(doc.records, nicknames, ws, Pass(fileName, now, cfg, rewarded));
    var record := Scored(now, |nicknames|, if weight.Uniform? then weight.w as real else Average(ws), ws,
                         cfg.baseScore, TotalPoints(ws, cfg, |rewarded|), cfg.rewardCount,
                         cfg.rewardMultiplier, rewarded);
    next := Document(people, doc.processedFiles.Put(fileName, record), now, doc.totalFilesProcessed + 1);
    rewardedCount := |rewarded|;
  }

  // ---------------------------------------------------------------------
  // A weight-only update (`update_existing_file_scores`)

  /** The line a weight-only update writes: the weight is also the points,
      and there is no base score and no reward flag. */
  function NewLine(fileName: string, now: string, w: int): Contribution {
    Contribution(fileName, now, w, None, w as real, None)
  }

  /** Where the `for file_record in files` search stops: the first line of
      the file, or the end of the history. */
  function FirstLine(files: seq<Contribution>, fileName: string): (i: nat)
    ensures i <= |files|
    ensures i < |files| ==> files[i].fileName == fileName
  {
    if files == [] then 0
    else if files[0].fileName == fileName then 0
    else 1 + FirstLine(files[1..], fileName)
  }

  /** The search passes over no line of the file. */
  lemma {:induction false} FirstLineIsFirst(files: seq<Contribution>, fileName: string)
    ensures forall j :: 0 <= j < FirstLine(files, fileName) ==> files[j].fileName != fileName
  {
    if files != [] && files[0].fileName != fileName {
      FirstLineIsFirst(files[1..], fileName);
    }
  }

  /** The `for … else` over a history: the first line of the file takes the
      new weight as weight and as points and is stamped `now`; a history
      without such a line gets a new one. */
  function RewriteHistory(files: seq<Contribution>, fileName: string, w: int, now: string): seq<Contribution> {
    var i := FirstLine(files, fileName);
    if i < |files| then files[i := files[i].(weight := w, points := w as real, date := now)]
    else files + [NewLine(fileName, now, w)]
  }

  /** Only one line is touched: the first line of the file, or a new last
      line; every other line stays as it was. */
  lemma RewriteHistoryTouchesOne(files: seq<Contribution>, fileName: string, w: int, now: string)
    ensures var r, i := RewriteHistory(files, fileName, w, now), FirstLine(files, fileName);
      && |r| == (if i < |files| then |files| else |files| + 1)
      && (forall j :: 0 <= j < |files| && j != i ==> r[j] == files[j])
      && r[i].fileName == fileName && r[i].weight == w && r[i].points == w as real && r[i].date == now
  {
  }

  /** A history holding a line of the file has its first such line where it was. */
  lemma FirstLineOfRewrite(files: seq<Contribution>, fileName: string, w: int, now: string)
    ensures FirstLine(RewriteHistory(files, fileName, w, now), fileName) == FirstLine(files, fileName)
  {
    var r, i := RewriteHistory(files, fileName, w, now), FirstLine(files, fileName);
    var i' := FirstLine(r, fileName);
    RewriteHistoryTouchesOne(files, fileName, w, now);
    FirstLineIsFirst(files, fileName);
    FirstLineIsFirst(r, fileName);
  }

  /** Rewriting twice is rewriting once: a nickname listed twice leaves the
      same history as one listed once. */
  lemma RewriteHistoryIdempotent(files: seq<Contribution>, fileName: string, w: int, now: string)
    ensures RewriteHistory(RewriteHistory(files, fileName, w, now), fileName, w, now)
      == RewriteHistory(files, fileName, w, now)
  {
    FirstLineOfRewrite(files, fileName, w, now);
  }

  /** What a weight-only update writes, fixed before its loop: the file, the
      new weight, `diff = new_weight − old_weight` and the time. */
  datatype Reweighting = Reweighting(fileName: string, w: int, diff: real, now: string)

  /** One named row of the update: an existing participant's score shifts by
      `diff` and its history is rewritten; someone unknown starts with the new
      weight as score and one new line. */
  function ReweightOne(records: OrderedMap<Participant>, name: string, u: Reweighting): OrderedMap<Participant> {
    if name in records.values then
      var p := records.values[name];
      records.Put(name, Participant(p.score + u.diff, RewriteHistory(p.files, u.fileName, u.w, u.now)))
    else records.Put(name, Participant(u.w as real, [NewLine(u.fileName, u.now, u.w)]))
  }

  /** One row of the update: a blank stripped nickname is skipped. */
  function ReweightRow(records: OrderedMap<Participant>, name: string, u: Reweighting): OrderedMap<Participant> {
    if name == [] then records else ReweightOne(records, name, u)
  }

  /** The first `k` stripped nicknames applied in order. */
  function ReweightNames(records: OrderedMap<Participant>, names: seq<string>, k: nat, u: Reweighting): OrderedMap<Participant>
    requires k <= |names|
  {
    if k == 0 then records else ReweightRow(ReweightNames(records, names, k - 1, u), names[k - 1], u)
  }

  /** The stripped nickname `name` is the non-blank `x`. */
  predicate Hits(name: string, x: string) {
    name != [] && name == x
  }

  /** How many of the first `k` names are the non-blank `x`. */
  function Occurrences(x: string, names: seq<string>, k: nat): nat
    requires k <= |names|
  {
    if k == 0 then 0
    else if Hits(names[k - 1], x) then Occurrences(x, names, k - 1) + 1
    else Occurrences(x, names, k - 1)
  }

  /** `n` times `diff`, as `n` successive `+= diff` steps add it up. */
  function Times(n: nat, diff: real): (r: real)
    ensures r == n as real * diff
  {
    if n == 0 then 0.0 else Times(n - 1, diff) + diff
  }

  /** One row of the update changes only the participant it names. */
  lemma ReweightRowStep(prev: OrderedMap<Participant>, name: string, u: Reweighting, x: string)
    ensures var after := ReweightRow(prev, name, u);
      && (x in after.values <==> x in prev.values || Hits(name, x))
      && (!Hits(name, x) ==> Find(after, x) == Find(prev, x))
      && (Hits(name, x) && x in prev.values ==> after.values[x].score == prev.values[x].score + u.diff)
      && (Hits(name, x) && x in prev.values ==>
            after.values[x].files == RewriteHistory(prev.values[x].files, u.fileName, u.w, u.now))
      && (Hits(name, x) && x !in prev.values ==> after.values[x].score == u.w as real)
      && (Hits(name, x) && x !in prev.values ==> after.values[x].files == [NewLine(u.fileName, u.now, u.w)])
      && prev.keys <= after.keys
  {
  }

  /** The update adds exactly the named nicknames and leaves everyone it does
      not name untouched. */
  lemma {:induction false} ReweightNamesMembers(records: OrderedMap<Participant>, names: seq<string>, k: nat,
                                                u: Reweighting, x: string)
    requires k <= |names|
    ensures var after, n := ReweightNames(records, names, k, u), Occurrences(x, names, k);
      && (x in after.values <==> x in records.values || n > 0)
      && (n == 0 ==> Find(after, x) == Find(records, x))
  {
    if k != 0 {
      ReweightNamesMembers(records, names, k - 1, u, x);
      ReweightRowStep(ReweightNames(records, names, k - 1, u), names[k - 1], u, x);
    }
  }

  /** A known participant whose nickname occurs `n` times gains `n × diff`. */
  lemma {:induction false} ReweightNamesKnownScore(records: OrderedMap<Participant>, names: seq<string>, k: nat,
                                                   u: Reweighting, x: string)
    requires k <= |names| && x in records.values
    ensures var after, n := ReweightNames(records, names, k, u), Occurrences(x, names, k);
      x in after.values && after.values[x].score == records.values[x].score + Times(n, u.diff)
  {
    if k != 0 {
      ReweightNamesKnownScore(records, names, k - 1, u, x);
      ReweightRowStep(ReweightNames(records, names, k - 1, u), names[k - 1], u, x);
    }
  }

  /** A known participant named at least once has its history rewritten once,
      however often its nickname occurs. */
  lemma {:induction false} ReweightNamesKnownFiles(records: OrderedMap<Participant>, names: seq<string>, k: nat,
                                                   u: Reweighting, x: string)
    requires k <= |names| && x in records.values && Occurrences(x, names, k) > 0
    ensures var after := ReweightNames(records, names, k, u);
      x in after.values && after.values[x].files == RewriteHistory(records.values[x].files, u.fileName, u.w, u.now)
  {
    var prev := ReweightNames(records, names, k - 1, u);
    ReweightRowStep(prev, names[k - 1], u, x);
    if Occurrences(x, names, k - 1) == 0 {
      ReweightNamesMembers(records, names, k - 1, u, x);
    } else {
      ReweightNamesKnownFiles(records, names, k - 1, u, x);
      RewriteHistoryIdempotent(records.values[x].files, u.fileName, u.w, u.now);
    }
  }

  /** A participant the update creates starts at the new weight and gains
      `diff` for each further occurrence of its nickname. */
  lemma {:induction false} ReweightNamesNewScore(records: OrderedMap<Participant>, names: seq<string>, k: nat,
                                                 u: Reweighting, x: string)
    requires k <= |names| && x !in records.values && Occurrences(x, names, k) > 0
    ensures var after, n := ReweightNames(records, names, k, u), Occurrences(x, names, k);
      x in after.values && after.values[x].score == u.w as real + Times(n - 1, u.diff)
  {
    var prev := ReweightNames(records, names, k - 1, u);
    ReweightRowStep(prev, names[k - 1], u, x);
    if Occurrences(x, names, k - 1) == 0 {
      ReweightNamesMembers(records, names, k - 1, u, x);
    } else {
      ReweightNamesNewScore(records, names, k - 1, u, x);
    }
  }

  /** A participant the update creates holds the one line the update wrote. */
  lemma {:induction false} ReweightNamesNewFiles(records: OrderedMap<Participant>, names: seq<string>, k: nat,
                                                 u: Reweighting, x: string)
    requires k <= |names| && x !in records.values && Occurrences(x, names, k) > 0
    ensures var after := ReweightNames(records, names, k, u);
      x in after.values && after.values[x].files == [NewLine(u.fileName, u.now, u.w)]
  {
    var prev := ReweightNames(records, names, k - 1, u);
    ReweightRowStep(prev, names[k - 1], u, x);
    if Occurrences(x, names, k - 1) == 0 {
      ReweightNamesMembers(records, names, k - 1, u, x);
    } else {
      ReweightNamesNewFiles(records, names, k - 1, u, x);
      NewLineRewritten(u.fileName, u.w, u.now);
    }
  }

  /** A history holding only the update's own line is left as it is. */
  lemma NewLineRewritten(fileName: string, w: int, now: string)
    ensures RewriteHistory([NewLine(fileName, now, w)], fileName, w, now) == [NewLine(fileName, now, w)]
  {
  }

  /** The update keeps every nickname listed exactly once in `records`. */
  lemma {:induction false} ReweightNamesValid(records: OrderedMap<Participant>, names: seq<string>, k: nat, u: Reweighting)
    requires records.Valid() && k <= |names|
    ensures ReweightNames(records, names, k, u).Valid()
  {
    if k != 0 {
      var prev := ReweightNames(records, names, k - 1, u);
      ReweightNamesValid(records, names, k - 1, u);
      var name := names[k - 1];
      if name != [] {
        if name in prev.values {
          var p := prev.values[name];
          prev.PutValid(name, Participant(p.score + u.diff, RewriteHistory(p.files, u.fileName, u.w, u.now)));
        } else {
          prev.PutValid(name, Participant(u.w as real, [NewLine(u.fileName, u.now, u.w)]));
        }
      }
    }
  }

  /** `old_weight`: the registered weight of the file, 1 for an unknown file. */
  function OldWeight(registry: OrderedMap<FileRecord>, fileName: string): real {
    if fileName in registry.values then registry.values[fileName].weight else 1.0
  }

  /** `nickname.strip()` for every row. */
  function StripAll(nicknames: seq<string>): (r: seq<string>)
    ensures |r| == |nicknames|
    ensures forall i :: 0 <= i < |r| ==> r[i] == Strip(nicknames[i])
  {
    seq(|nicknames|, i requires 0 <= i < |nicknames| => Strip(nicknames[i]))
  }

  /** The update of `fileName` to weight `w`: `diff` is measured against the
      registered weight. */
  function ReweightingOf(doc: Document, fileName: string, w: int, now: string): Reweighting {
    Reweighting(fileName, w, w as real - OldWeight(doc.processedFiles, fileName), now)
  }

  /** `update_existing_file_scores` on the document: every named participant
      moves by `new_weight − old_weight`, the file's record is replaced by the
      four fields of a weight-only update, and the processed-file counter is
      left alone. */
  function Reweight(doc: Document, nicknames: seq<string>, fileName: string, w: int, now: string): (r: Document)
    requires doc.Valid()
    ensures r.Valid()
    ensures r.totalFilesProcessed == doc.totalFilesProcessed
    ensures r.processedFiles.values
      == doc.processedFiles.values[fileName := Reweighted(now, |nicknames|, w as real, (|nicknames| * w) as real)]
  {
    var u := ReweightingOf(doc, fileName, w, now);
    var record := Reweighted(now, |nicknames|, w as real, (|nicknames| * w) as real);
    ReweightNamesValid(doc.records, StripAll(nicknames), |nicknames|, u);
    doc.processedFiles.PutValid(fileName, record);
    Document(ReweightNames(doc.records, StripAll(nicknames), |nicknames|, u),
             doc.processedFiles.Put(fileName, record), now, doc.totalFilesProcessed)
  }

  /** Conservation after a weight-only update: for a known participant named
      once whose history holds a line of the file, the score still equals the
      sum of its history iff that line's points were the file's old weight
      (`u.w − u.diff`, see `ReweightingOf`). A line scored with a reward, or
      with a base score other than 1, has other points, so the update breaks
      `score == sum of points` for it. */
  lemma ReweightOnceConserved(records: OrderedMap<Participant>, names: seq<string>, u: Reweighting, x: string)
    requires Conserved(records)
    requires x in records.values && Occurrences(x, names, |names|) == 1
    requires FirstLine(records.values[x].files, u.fileName) < |records.values[x].files|
    ensures var after := ReweightNames(records, names, |names|, u);
      var line := records.values[x].files[FirstLine(records.values[x].files, u.fileName)];
      x in after.values
      && (after.values[x].score == SumPoints(after.values[x].files) <==> line.points == u.w as real - u.diff)
  {
    var files := records.values[x].files;
    var i := FirstLine(files, u.fileName);
    ReweightNamesKnownScore(records, names, |names|, u, x);
    ReweightNamesKnownFiles(records, names, |names|, u, x);
    SumPointsUpdate(files, i, files[i].(weight := u.w, points := u.w as real, date := u.now));
  }

  /** Replacing one line changes the sum by the difference of its points. */
  lemma {:induction false} SumPointsUpdate(files: seq<Contribution>, i: nat, c: Contribution)
    requires i < |files|
    ensures SumPoints(files[i := c]) == SumPoints(files) - files[i].points + c.points
  {
    var n := |files| - 1;
    if i < n {
      assert files[i := c][..n] == files[..n][i := c];
      SumPointsUpdate(files[..n], i, c);
    } else {
      assert files[i := c][..n] == files[..n];
    }
  }

  /** The `for … else` search over one history, then the rewrite. */
  method RewriteHistoryLoop(files: seq<Contribution>, fileName: string, w: int, now: string)
    returns (r: seq<Contribution>)
    ensures r == RewriteHistory(files, fileName, w, now)
  {
    FirstLineIsFirst(files, fileName);
    var i := 0;
    while i < |files| && files[i].fileName != fileName
      invariant i <= FirstLine(files, fileName)
    {
      i := i + 1;
    }
    if i < |files| {
      r := files[i := files[i].(weight := w, points := w as real, date := now)];
    } else {
      r := files + [NewLine(fileName, now, w)];
    }
  }

  /** One iteration of the update's loop over the nicknames. */
  method ReweightNickname(people: OrderedMap<Participant>, nickname: string, u: Reweighting)
    returns (after: OrderedMap<Participant>)
    ensures after == ReweightRow(people, Strip(nickname), u)
  {
    var name := Strip(nickname);
    if name == [] {
      after := people;
    } else if name in people.values {
      var p := people.values[name];
      var files := RewriteHistoryLoop(p.files, u.fileName, u.w, u.now);
      after := people.Put(name, Participant(p.score + u.diff, files));
    } else {
      after := people.Put(name, Participant(u.w as real, [NewLine(u.fileName, u.now, u.w)]));
    }
  }

  /** The loop of `update_existing_file_scores` over `nicknames`. */
  method ReweightNicknames(records: OrderedMap<Participant>, nicknames: seq<string>, u: Reweighting)
    returns (people: OrderedMap<Participant>)
    ensures people == ReweightNames(records, StripAll(nicknames), |nicknames|, u)
  {
    ghost var names := StripAll(nicknames);
    people := records;
    for idx := 0 to |nicknames|
      invariant people == ReweightNames(records, names, idx, u)
    {
      assert names[idx] == Strip(nicknames[idx]);
      people := ReweightNickname(people, nicknames[idx], u);
    }
  }

  /** The body of `update_existing_file_scores`: measure the weight change
      against the registry, overwrite the file's record and move every
      named participant. */
  method ReweightPass(doc: Document, nicknames: seq<string>, fileName: string, w: int, now: string)
    returns (next: Document)
    requires doc.Valid()
    ensures next == Reweight(doc, nicknames, fileName, w, now)
  {
    var oldWeight := 1.0;
    if fileName in doc.processedFiles.values {
      oldWeight := doc.processedFiles.values[fileName].weight;
    }
    var u := Reweighting(fileName, w, w as real - oldWeight, now);
    assert u == ReweightingOf(doc, fileName, w, now);
    var registry := doc.processedFiles.Put(fileName, Reweighted(now, |nicknames|, w as real, (|nicknames| * w) as real));
    var people := ReweightNicknames(doc.records, nicknames, u);
    next := Document(people, registry, now, doc.totalFilesProcessed);
  }

  /** The record a scoring pass leaves for the file: the time of the pass,
      the number of nicknames, the weight (the int given, or the average of a
      per-row list), the per-row weights, the settings of the pass, the
      rewarded users, and the total of the formula. */
  lemma ScoreFileRecord(doc: Document, nicknames: seq<string>, times: seq<string>, fileName: string,
                        weight: WeightArg, cfg: Settings, now: string)
    requires doc.Valid()
    ensures var r := ScoreFile(doc, nicknames, times, fileName, weight, cfg, now);
      r.Success? ==>
        && fileName in r.value.processedFiles.values
        && var rec := r.value.processedFiles.values[fileName];
        && var ws := if weight.Uniform? then seq(|nicknames|, _ => weight.w) else weight.ws;
        && var rewarded := Rewarded(nicknames, times, cfg.rewardCount);
        && rec.Scored? && rec.processedDate == now && rec.nicknamesCount == |nicknames|
        && rec.weight == (if weight.Uniform? then weight.w as real else Average(weight.ws))
        && rec.weights == ws && rec.baseScore == cfg.baseScore
        && rec.rewardCount == cfg.rewardCount && rec.rewardMultiplier == cfg.rewardMultiplier
        && rec.rewardedUsers == rewarded
        && rec.totalPoints == TotalPoints(ws, cfg, |rewarded|)
  {
    match Weights(weight, |nicknames|)
    case Failure(_) =>
    case Success(ws) =>
      assert ws == if weight.Uniform? then seq(|nicknames|, _ => weight.w) else weight.ws;
      var rewarded := Rewarded(nicknames, times, cfg.rewardCount);
      var record := Scored(now, |nicknames|, if weight.Uniform? then weight.w as real else Average(ws), ws,
                           cfg.baseScore, TotalPoints(ws, cfg, |rewarded|), cfg.rewardCount,
                           cfg.rewardMultiplier, rewarded);
      var d := ScoreWith(doc, nicknames, times, fileName, weight, cfg, now, ws);
      assert d.processedFiles == doc.processedFiles.Put(fileName, record);
      assert d.processedFiles.values[fileName] == record;
  }

  /** The points the rows of a pass add to the ledger: the line of every
      non-blank row. */
  function RowsPoints(rows: seq<Row>): real {
    if rows == [] then 0.0
    else RowsPoints(rows[..|rows| - 1]) + (if rows[|rows| - 1].name == [] then 0.0 else rows[|rows| - 1].line.points)
  }

  lemma {:induction false} UniformSum(n: nat, w: int)
    ensures Sum(seq(n, _ => w)) == n * w
  {
    if n > 0 {
      assert seq(n, _ => w)[..n - 1] == seq(n - 1, _ => w);
      UniformSum(n - 1, w);
    }
  }

  lemma {:induction false} UniformBaseTotal(base: real, n: nat, w: int)
    ensures BaseTotal(base, seq(n, _ => w)) == n as real * (base * w as real)
  {
    if n > 0 {
      assert seq(n, _ => w)[..n - 1] == seq(n - 1, _ => w);
      UniformBaseTotal(base, n - 1, w);
    }
  }

  /** What `n` rows at weight `w` earn when `r` of them are rewarded:
      `n × basic + r × (reward_multiplier × basic − basic)` with
      `basic = base_score × w`. */
  function Payout(cfg: Settings, w: int, n: nat, r: nat): real {
    var basic := cfg.baseScore * w as real;
    n as real * basic + r as real * (cfg.rewardMultiplier * basic - basic)
  }

  /** One more row adds its own points to the payout. */
  lemma PayoutStep(cfg: Settings, w: int, n: nat, r: nat, rewarded: bool)
    ensures Payout(cfg, w, n + 1, if rewarded then r + 1 else r) == Payout(cfg, w, n, r) + RowPoints(cfg, w, rewarded)
  {
  }

  /** How many entries of `names` are in `r`. */
  function CountIn(names: seq<string>, r: set<string>): nat {
    if names == [] then 0
    else CountIn(names[..|names| - 1], r) + (if names[|names| - 1] in r then 1 else 0)
  }

  /** Without repetitions, the count is the size of the overlap. */
  lemma {:induction false} CountInDistinct(names: seq<string>, r: set<string>)
    requires Distinct(names)
    ensures CountIn(names, r) == |r * Elements(names)|
  {
    if names == [] {
      assert r * Elements(names) == {};
    } else {
      var init, last := names[..|names| - 1], names[|names| - 1];
      CountInDistinct(init, r);
      assert names == init + [last];
      assert last !in Elements(init);
      if last in r {
        assert r * Elements(names) == r * Elements(init) + {last};
      } else {
        assert r * Elements(names) == r * Elements(init);
      }
    }
  }

  /** Rows with one weight `w` and non-blank names, each earning `basic =
      base_score × w` and a rewarded one `reward_multiplier × basic`, add up
      to their payout. */
  lemma {:induction false} UniformRowsPoints(rows: seq<Row>, names: seq<string>, cfg: Settings, w: int,
                                             rewarded: set<string>)
    requires |names| == |rows|
    requires forall i :: 0 <= i < |rows| ==>
               && rows[i].name == names[i] && names[i] != []
               && rows[i].line.points == RowPoints(cfg, w, names[i] in rewarded)
    ensures RowsPoints(rows) == Payout(cfg, w, |rows|, CountIn(names, rewarded))
  {
    if rows != [] {
      var n := |rows| - 1;
      assert forall i :: 0 <= i < n ==> rows[..n][i] == rows[i] && names[..n][i] == names[i];
      UniformRowsPoints(rows[..n], names[..n], cfg, w, rewarded);
      PayoutStep(cfg, w, n, CountIn(names[..n], rewarded), names[n] in rewarded);
    }
  }

  /** `total_points` for one weight `w` on `n` rows of which `r` are
      rewarded is their payout. */
  lemma UniformTotalPoints(n: nat, w: int, cfg: Settings, r: nat)
    requires n == 0 ==> r == 0
    ensures TotalPoints(seq(n, _ => w), cfg, r) == Payout(cfg, w, n, r)
  {
    UniformBaseTotal(cfg.baseScore, n, w);
    if n > 0 {
      UniformSum(n, w);
      assert (n * w) as real == n as real * w as real;
      assert Average(seq(n, _ => w)) == w as real;
    }
  }

  /** A pass with one weight `w` over distinct nicknames that are already
      stripped and not blank, rewarding some of them, hands out the total
      of the formula. */
  lemma PassTotal(p: Pass, nicknames: seq<string>, w: int)
    requires Distinct(nicknames)
    requires forall i :: 0 <= i < |nicknames| ==> nicknames[i] != [] && Strip(nicknames[i]) == nicknames[i]
    requires forall x :: x in p.rewarded ==> x in nicknames
    ensures RowsPoints(PassRows(p, nicknames, seq(|nicknames|, _ => w)))
              == TotalPoints(seq(|nicknames|, _ => w), p.cfg, |p.rewarded|)
  {
    var ws := seq(|nicknames|, _ => w);
    var rows := PassRows(p, nicknames, ws);
    forall i | 0 <= i < |rows|
      ensures rows[i].name == nicknames[i]
      ensures rows[i].line.points == RowPoints(p.cfg, w, nicknames[i] in p.rewarded)
    {
      assert ws[i] == w;
    }
    UniformRowsPoints(rows, nicknames, p.cfg, w, p.rewarded);
    CountInDistinct(nicknames, p.rewarded);
    assert p.rewarded * Elements(nicknames) == p.rewarded;
    assert nicknames == [] ==> p.rewarded == {};
    UniformTotalPoints(|nicknames|, w, p.cfg, |p.rewarded|);
  }

  /** For one weight `w` and distinct nicknames that are already stripped and
      not blank, the `total_points` a scoring pass records for the file is the
      sum of the points it hands out. */
  lemma RecordedTotalIsAppended(nicknames: seq<string>, times: seq<string>, fileName: string,
                                w: int, cfg: Settings, now: string)
    requires Distinct(nicknames)
    requires forall i :: 0 <= i < |nicknames| ==> nicknames[i] != [] && Strip(nicknames[i]) == nicknames[i]
    ensures var rewarded := Rewarded(nicknames, times, cfg.rewardCount);
      RowsPoints(PassRows(Pass(fileName, now, cfg, rewarded), nicknames, seq(|nicknames|, _ => w)))
        == TotalPoints(seq(|nicknames|, _ => w), cfg, |rewarded|)
  {
    RewardedChoice(nicknames, times, cfg.rewardCount);
    PassTotal(Pass(fileName, now, cfg, Rewarded(nicknames, times, cfg.rewardCount)), nicknames, w);
  }

  // ---------------------------------------------------------------------
  // Queries

  /** `is_file_processed`: whether the registry has a record of the file. */
  function IsFileProcessed(doc: Document, fileName: string): (r: bool)
    requires doc.Valid()
    ensures r <==> fileName in doc.processedFiles.keys
  {
    doc.processedFiles.KeysListed();
    fileName in doc.processedFiles.values
  }

  /** After a scoring pass the file counts as processed, and no other file
      changes status. */
  lemma ScoringRegisters(doc: Document, nicknames: seq<string>, times: seq<string>, fileName: string,
                         weight: WeightArg, cfg: Settings, now: string, f: string)
    requires doc.Valid()
    ensures var r := ScoreFile(doc, nicknames, times, fileName, weight, cfg, now);
      r.Success? ==> (IsFileProcessed(r.value, f) <==> f == fileName || IsFileProcessed(doc, f))
  {
    var r := ScoreFile(doc, nicknames, times, fileName, weight, cfg, now);
    if r.Success? {
      assert f in r.value.processedFiles.values.Keys <==> f == fileName || f in doc.processedFiles.values.Keys;
    }
  }

  /** The same for a weight-only update. */
  lemma ReweightRegisters(doc: Document, nicknames: seq<string>, fileName: string, w: int, now: string, f: string)
    requires doc.Valid()
    ensures IsFileProcessed(Reweight(doc, nicknames, fileName, w, now), f) <==> f == fileName || IsFileProcessed(doc, f)
  {
    var r := Reweight(doc, nicknames, fileName, w, now);
    assert f in r.processedFiles.values <==> f in r.processedFiles.values.Keys;
  }

  /** One row of `get_leaderboard`. */
  datatype Entry = Entry(nickname: string, score: real, participationCount: nat)

  /** The row of participant `x`: its score and the length of its history. */
  function EntryOf(records: OrderedMap<Participant>, x: string): Entry
    requires x in records.values
  {
    Entry(x, records.values[x].score, |records.values[x].files|)
  }

  /** The rows in `records.items()` order, before sorting. */
  function Entries(records: OrderedMap<Participant>): (r: seq<Entry>)
    requires records.Valid()
    ensures |r| == |records.keys|
    ensures forall i :: 0 <= i < |r| ==> records.keys[i] in records.values && r[i] == EntryOf(records, records.keys[i])
  {
    records.KeysListed();
    seq(|records.keys|, i requires 0 <= i < |records.keys| && records.keys[i] in records.values =>
      EntryOf(records, records.keys[i]))
  }

  function ScoreOf(e: Entry): real {
    e.score
  }

  /** `reverse=True` on scores: a higher score may come first. */
  predicate HigherScore(a: real, b: real) {
    a >= b
  }

  /** `get_leaderboard`: the rows sorted by score, highest first, by Python's
      stable sort. */
  function Leaderboard(doc: Document): seq<Entry>
    requires doc.Valid()
  {
    SortBy(ScoreOf, HigherScore, Entries(doc.records))
  }

  /** The leaderboard has exactly one row per participant, whose participation
      count is the length of its history (lines, not distinct files); scores
      never increase down the board; and participants with equal scores keep
      their insertion order. */
  lemma LeaderboardCorrect(doc: Document)
    requires doc.Valid()
    ensures |Leaderboard(doc)| == |doc.records.values|
    ensures forall x :: x in doc.records.values ==> EntryOf(doc.records, x) in Leaderboard(doc)
    ensures forall e :: e in Leaderboard(doc) ==>
              e.nickname in doc.records.values && e == EntryOf(doc.records, e.nickname)
    ensures forall i, j :: 0 <= i < j < |Leaderboard(doc)| ==> Leaderboard(doc)[i].score >= Leaderboard(doc)[j].score
    ensures forall s :: WithKey(ScoreOf, Leaderboard(doc), s) == WithKey(ScoreOf, Entries(doc.records), s)
  {
    var es := Entries(doc.records);
    var r := Leaderboard(doc);
    assert TotalPreorder(HigherScore);
    SortByCorrect(ScoreOf, HigherScore, es);
    doc.records.KeysListed();
    forall x | x in doc.records.values
      ensures EntryOf(doc.records, x) in r
    {
      var i :| 0 <= i < |doc.records.keys| && doc.records.keys[i] == x;
      assert es[i] in multiset(es);
    }
    forall e | e in r
      ensures e.nickname in doc.records.values && e == EntryOf(doc.records, e.nickname)
    {
      assert e in multiset(es);
    }
    forall i, j | 0 <= i < j < |r|
      ensures r[i].score >= r[j].score
    {
      assert HigherScore(ScoreOf(r[i]), ScoreOf(r[j]));
    }
  }

  /** `get_statistics`. */
  datatype Statistics = Statistics(totalParticipants: nat, totalFilesProcessed: int,
                                   lastUpdated: string, totalCheckins: real)

  /** The sum of the scores of some rows. */
  function SumScores(es: seq<Entry>): real {
    if es == [] then 0.0 else SumScores(es[..|es| - 1]) + es[|es| - 1].score
  }

  function StatisticsOf(doc: Document): Statistics
    requires doc.Valid()
  {
    Statistics(|doc.records.values|, doc.totalFilesProcessed, doc.lastUpdated, SumScores(Entries(doc.records)))
  }

  lemma {:induction false} SumScoresAppend(a: seq<Entry>, b: seq<Entry>)
    ensures SumScores(a + b) == SumScores(a) + SumScores(b)
  {
    if b != [] {
      assert (a + b)[..|a + b| - 1] == a + b[..|b| - 1];
      SumScoresAppend(a, b[..|b| - 1]);
    } else {
      assert a + b == a;
    }
  }

  /** Summing in another order gives the same total. */
  lemma {:induction false} SumScoresPermutation(a: seq<Entry>, b: seq<Entry>)
    requires multiset(a) == multiset(b)
    ensures SumScores(a) == SumScores(b)
  {
    if a == [] {
      assert |b| == |multiset(b)| == 0;
    } else {
      var x, rest := a[|a| - 1], a[..|a| - 1];
      assert a == rest + [x];
      assert x in multiset(b);
      var j :| 0 <= j < |b| && b[j] == x;
      var before, after := b[..j], b[j + 1..];
      assert b == before + [x] + after;
      assert multiset(b) == multiset(before + after) + multiset{x};
      MultisetCancel(multiset(rest), multiset(before + after), x);
      SumScoresPermutation(rest, before + after);
      SumScoresAppend(before, after);
      SumScoresAppend(before + [x], after);
      SumScoresAppend(before, [x]);
      assert SumScores([x]) == x.score by {
        assert [x][..0] == [];
      }
    }
  }

  /** The statistics agree with the leaderboard: one participant per row, and
      the check-ins are the sum of the scores shown. */
  lemma StatisticsAgree(doc: Document)
    requires doc.Valid()
    ensures StatisticsOf(doc).totalParticipants == |Leaderboard(doc)|
    ensures StatisticsOf(doc).totalCheckins == SumScores(Leaderboard(doc))
  {
    LeaderboardCorrect(doc);
    assert TotalPreorder(HigherScore);
    SortByCorrect(ScoreOf, HigherScore, Entries(doc.records));
    SumScoresPermutation(Entries(doc.records), Leaderboard(doc));
  }

  /** One row of `get_processed_files`. */
  datatype FileSummary = FileSummary(fileName: string, processedDate: string, nicknamesCount: nat,
                                     weight: real, baseScore: real, totalPoints: real,
                                     rewardCount: int, rewardMultiplier: real,
                                     rewardedUsers: set<string>)

  /** The row of a registered file; a weight-only record lacks the scoring
      fields, which read as base score 1.0, no reward slots, multiplier 1.0
      and nobody rewarded. */
  function SummaryOf(fileName: string, rec: FileRecord): FileSummary {
    match rec
    case Scored(date, n, w, _, base, total, count, mult, users) =>
      FileSummary(fileName, date, n, w, base, total, count, mult, users)
    case Reweighted(date, n, w, total) =>
      FileSummary(fileName, date, n, w, 1.0, total, 0, 1.0, {})
  }

  /** The rows in registry order, before sorting. */
  function Summaries(registry: OrderedMap<FileRecord>): (r: seq<FileSummary>)
    requires registry.Valid()
    ensures |r| == |registry.keys|
    ensures forall i :: 0 <= i < |r| ==>
              registry.keys[i] in registry.values && r[i] == SummaryOf(registry.keys[i], registry.values[registry.keys[i]])
  {
    registry.KeysListed();
    seq(|registry.keys|, i requires 0 <= i < |registry.keys| && registry.keys[i] in registry.values =>
      SummaryOf(registry.keys[i], registry.values[registry.keys[i]]))
  }

  function DateOf(f: FileSummary): string {
    f.processedDate
  }

  /** `reverse=True` on dates: a later date may come first. */
  predicate LaterDate(a: string, b: string) {
    LexLe(b, a)
  }

  /** `get_processed_files`: the rows sorted newest first. */
  function ProcessedFiles(doc: Document): seq<FileSummary>
    requires doc.Valid()
  {
    SortBy(DateOf, LaterDate, Summaries(doc.processedFiles))
  }

  lemma LaterDateTotalPreorder()
    ensures TotalPreorder(LaterDate)
  {
    LexLeTotalPreorder();
    assert forall a, b :: LaterDate(a, b) == ((a: string, b: string) => LexLe(b, a))(a, b);
  }

  /** The list has exactly one row per registered file. */
  lemma ProcessedFilesRows(doc: Document)
    requires doc.Valid()
    ensures |ProcessedFiles(doc)| == |doc.processedFiles.values|
    ensures forall f :: f in doc.processedFiles.values ==>
              SummaryOf(f, doc.processedFiles.values[f]) in ProcessedFiles(doc)
    ensures forall s :: s in ProcessedFiles(doc) ==>
              s.fileName in doc.processedFiles.values && s == SummaryOf(s.fileName, doc.processedFiles.values[s.fileName])
  {
    var registry := doc.processedFiles;
    var ss := Summaries(registry);
    LaterDateTotalPreorder();
    SortByCorrect(DateOf, LaterDate, ss);
    SortByMembers(DateOf, LaterDate, ss);
    registry.KeysListed();
    forall f | f in registry.values
      ensures SummaryOf(f, registry.values[f]) in ss
    {
      SummariesCover(registry, f);
    }
    forall s | s in ss
      ensures s.fileName in registry.values && s == SummaryOf(s.fileName, registry.values[s.fileName])
    {
      SummariesOnly(registry, s);
    }
  }

  /** Every registered file has its row among the unsorted rows. */
  lemma SummariesCover(registry: OrderedMap<FileRecord>, f: string)
    requires registry.Valid() && f in registry.values
    ensures SummaryOf(f, registry.values[f]) in Summaries(registry)
  {
    var ss := Summaries(registry);
    registry.KeysListed();
    var i :| 0 <= i < |registry.keys| && registry.keys[i] == f;
    assert ss[i] == SummaryOf(f, registry.values[f]);
  }

  /** Every unsorted row is the row of a registered file. */
  lemma SummariesOnly(registry: OrderedMap<FileRecord>, s: FileSummary)
    requires registry.Valid() && s in Summaries(registry)
    ensures s.fileName in registry.values && s == SummaryOf(s.fileName, registry.values[s.fileName])
  {
    var ss := Summaries(registry);
    var i :| 0 <= i < |ss| && ss[i] == s;
    var k := registry.keys[i];
    assert SummaryOf(k, registry.values[k]).fileName == k;
  }

  /** The list is newest first, and files processed at the same moment keep
      their registry order. */
  lemma ProcessedFilesOrder(doc: Document)
    requires doc.Valid()
    ensures forall i, j :: 0 <= i < j < |ProcessedFiles(doc)| ==>
              LexLe(ProcessedFiles(doc)[j].processedDate, ProcessedFiles(doc)[i].processedDate)
    ensures forall d :: WithKey(DateOf, ProcessedFiles(doc), d) == WithKey(DateOf, Summaries(doc.processedFiles), d)
  {
    var r := ProcessedFiles(doc);
    LaterDateTotalPreorder();
    SortByCorrect(DateOf, LaterDate, Summaries(doc.processedFiles));
    forall i, j | 0 <= i < j < |r|
      ensures LexLe(r[j].processedDate, r[i].processedDate)
    {
      assert LaterDate(DateOf(r[i]), DateOf(r[j]));
    }
  }

  // ---------------------------------------------------------------------
  // The data file and backups

  /** The data file as found on disk: missing, not valid JSON, or a saved
      document, whose `processed_files` is absent when it was written before
      the registry existed. */
  datatype DataFile =
    | NoFile
    | Corrupt
    | Saved(records: OrderedMap<Participant>, processedFiles: Option<OrderedMap<FileRecord>>,
            lastUpdated: string, totalFilesProcessed: int)
  {
    predicate WellFormed() {
      Saved? ==> records.Valid() && (processedFiles.Some? ==> processedFiles.value.Valid())
    }
  }

  /** What `save_data` writes. */
  function SaveOf(doc: Document): DataFile {
    Saved(doc.records, Some(doc.processedFiles), doc.lastUpdated, doc.totalFilesProcessed)
  }

  /** `load_data`: a missing or corrupt file reads as the empty document, and a
      missing registry as an empty one. */
  function Load(file: DataFile, now: string): (d: Document)
    requires file.WellFormed()
    ensures d.Valid()
    ensures !file.Saved? ==> d == EmptyDocument(now)
    ensures file.Saved? && file.processedFiles.None? ==> d.processedFiles.values == map[]
  {
    match file
    case Saved(records, registry, stamp, total) =>
      Document(records, if registry.Some? then registry.value else EmptyMap(), stamp, total)
    case _ => EmptyDocument(now)
  }

  /** Loading what was saved gives the same document back. */
  lemma LoadSaved(doc: Document, now: string)
    requires doc.Valid()
    ensures SaveOf(doc).WellFormed()
    ensures Load(SaveOf(doc), now) == doc
  {
  }

  /** A top-level field of a backup: absent, present with the wrong JSON type,
      or present with a usable value. */
  datatype Field<T> = Absent | WrongType | Given(value: T)

  datatype Backup = Backup(records: Field<OrderedMap<Participant>>,
                           processedFiles: Field<OrderedMap<FileRecord>>,
                           lastUpdated: Field<string>,
                           totalFilesProcessed: Field<int>)

  /** A backup file as opened and parsed. */
  datatype BackupFile = Missing | NotJson | Json(backup: Backup) {
    predicate WellFormed() {
      Json? ==>
        && (backup.records.Given? ==> backup.records.value.Valid())
        && (backup.processedFiles.Given? ==> backup.processedFiles.value.Valid())
    }
  }

  /** The backup `json.dump` of a document produces. */
  function BackupOf(doc: Document): BackupFile {
    Json(Backup(Given(doc.records), Given(doc.processedFiles), Given(doc.lastUpdated), Given(doc.totalFilesProcessed)))
  }

  const AcceptedText := "文件格式正确"
  const MissingFieldText := "缺少必要字段: "
  const BadRecordsText := "records字段格式错误"
  const BadCounterText := "total_files_processed字段格式错误"
  const NotJsonText := "文件不是有效的JSON格式"
  const NoFileText := "文件不存在"

  /** `validate_backup_file`: the first missing field among `records`,
      `last_updated` and `total_files_processed` is reported, then a `records`
      that is not a dict, then a counter that is not an int. `processed_files`
      is not required, and the type of `last_updated` is not checked. */
  function ValidateBackup(file: BackupFile): (r: (bool, string))
    ensures r.0 <==> file.Json? && file.backup.records.Given? && !file.backup.lastUpdated.Absent?
                     && file.backup.totalFilesProcessed.Given?
    ensures r.0 ==> r.1 == AcceptedText
    ensures file.Json? && file.backup.records.Absent? ==> r == (false, MissingFieldText + "records")
  {
    match file
    case Missing => (false, NoFileText)
    case NotJson => (false, NotJsonText)
    case Json(b) =>
      if b.records.Absent? then (false, MissingFieldText + "records")
      else if b.lastUpdated.Absent? then (false, MissingFieldText + "last_updated")
      else if b.totalFilesProcessed.Absent? then (false, MissingFieldText + "total_files_processed")
      else if !b.records.Given? then (false, BadRecordsText)
      else if !b.totalFilesProcessed.Given? then (false, BadCounterText)
      else (true, AcceptedText)
  }

  /** `import_data`: the document a backup replaces the ledger with, stamped
      `now` by `save_data`, or nothing when the file cannot be read or one of
      the four fields is absent. Whatever `last_updated` holds is overwritten,
      so its type does not matter. */
  function Restore(file: BackupFile, now: string): (r: Option<Document>)
    requires file.WellFormed()
    ensures r.Some? ==> r.value.Valid() && r.value.lastUpdated == now
    ensures file.Json? && (file.backup.records.Absent? || file.backup.processedFiles.Absent?
                           || file.backup.lastUpdated.Absent? || file.backup.totalFilesProcessed.Absent?)
            ==> r.None?
    ensures file.Json? && file.backup.records.Given? && file.backup.processedFiles.Given?
            && !file.backup.lastUpdated.Absent? && file.backup.totalFilesProcessed.Given?
            ==> r == Some(Document(file.backup.records.value, file.backup.processedFiles.value, now,
                                   file.backup.totalFilesProcessed.value))
  {
    match file
    case Json(Backup(Given(records), Given(registry), lastUpdated, Given(total))) =>
      if lastUpdated.Absent? then None else Some(Document(records, registry, now, total))
    case _ => None
  }

  /** A backup of a document is accepted by validation and restores that
      document, stamped with the time of the import. */
  lemma BackupRoundTrip(doc: Document, now: string)
    requires doc.Valid()
    ensures ValidateBackup(BackupOf(doc)) == (true, AcceptedText)
    ensures BackupOf(doc).WellFormed()
    ensures Restore(BackupOf(doc), now) == Some(doc.(lastUpdated := now))
  {
  }

  /** Validation and import disagree: a backup without `processed_files` is
      declared valid, yet the import refuses it (the fallback to an empty
      registry in `import_data` is never reached). */
  lemma ValidatedButRefused(doc: Document, now: string)
    requires doc.Valid()
    ensures var file := Json(Backup(Given(doc.records), Absent, Given(doc.lastUpdated), Given(doc.totalFilesProcessed)));
      file.WellFormed() && ValidateBackup(file).0 && Restore(file, now).None?
  {
  }

  // ---------------------------------------------------------------------
  // The ledger object

  /** `DataManager` with its JSON file held in memory: the four top-level
      fields of the document. */
  class Ledger {
    var records: OrderedMap<Participant>
    var processedFiles: OrderedMap<FileRecord>
    var lastUpdated: string
    var totalFilesProcessed: int

    predicate Valid()
      reads this
    {
      records.Valid() && processedFiles.Valid()
    }

    function Doc(): Document
      reads this
    {
      Document(records, processedFiles, lastUpdated, totalFilesProcessed)
    }

    /** A session opened on its data file (`load_data`). */
    constructor (file: DataFile, now: string)
      requires file.WellFormed()
      ensures Valid() && Doc() == Load(file, now)
    {
      var d := Load(file, now);
      records, processedFiles, lastUpdated, totalFilesProcessed :=
        d.records, d.processedFiles, d.lastUpdated, d.totalFilesProcessed;
    }

    /** `update_scores_with_rewards`; answers the number of rewarded users. */
    method UpdateScoresWithRewards(nicknames: seq<string>, times: seq<string>, fileName: string,
                                   weight: WeightArg, cfg: Settings, now: string)
      returns (r: Result<nat, WeightMismatch>)
      requires Valid()
      modifies this
      ensures Valid()
      ensures ScoreFile(old(Doc()), nicknames, times, fileName, weight, cfg, now).Failure? ==>
                r.Failure? && Doc() == old(Doc())
      ensures ScoreFile(old(Doc()), nicknames, times, fileName, weight, cfg, now).Success? ==>
                && r == Success(|Rewarded(nicknames, times, cfg.rewardCount)|)
                && Doc() == ScoreFile(old(Doc()), nicknames, times, fileName, weight, cfg, now).value
    {
      var data := Doc();  // load_data
      var ws: seq<int>;
      if weight.Uniform? {
        ws := seq(|nicknames|, _ => weight.w);
      } else {
        ws := weight.ws;
        if |ws| != |nicknames| {
          return Failure(WeightMismatch(|ws|, |nicknames|));
        }
      }
      ScoreFileWith(data, nicknames, times, fileName, weight, cfg, now, ws);
      var next, rewardedCount := ScorePass(data, nicknames, times, fileName, weight, cfg, now, ws);
      // save_data
      records, processedFiles, lastUpdated, totalFilesProcessed :=
        next.records, next.processedFiles, next.lastUpdated, next.totalFilesProcessed;
      r := Success(rewardedCount);
    }

    /** `update_existing_file_scores`: a weight-only update of a processed file. */
    method UpdateExistingFileScores(nicknames: seq<string>, fileName: string, w: int, now: string)
      requires Valid()
      modifies this
      ensures Valid()
      ensures Doc() == Reweight(old(Doc()), nicknames, fileName, w, now)
    {
      var data := Doc();  // load_data
      var next := ReweightPass(data, nicknames, fileName, w, now);
      // save_data
      records, processedFiles, lastUpdated := next.records, next.processedFiles, next.lastUpdated;
    }

    /** `import_data`: all four fields or nothing. A refused backup leaves the
        ledger as it was. */
    method ImportData(file: BackupFile, now: string) returns (ok: bool)
      requires Valid() && file.WellFormed()
      modifies this
      ensures Valid()
      ensures ok <==> Restore(file, now).Some?
      ensures ok ==> Doc() == Restore(file, now).value
      ensures !ok ==> Doc() == old(Doc())
    {
      var restored := Restore(file, now);
      if restored.None? {
        return false;
      }
      var d := restored.value;
      records, processedFiles, lastUpdated, totalFilesProcessed :=
        d.records, d.processedFiles, d.lastUpdated, d.totalFilesProcessed;
      return true;
    }
  }
}
