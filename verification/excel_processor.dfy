// The spreadsheet side of the program (excel_processor.py): finding the
// nickname and time columns by keyword, cleaning nicknames, and turning a
// parsed sheet into parallel lists of distinct nicknames and their times.
// Reading the workbook itself (pandas with openpyxl / xlrd) is a foreign call:
// its outcome, a parsed sheet or the exception it raised, is an input here.

module ExcelProcessor {
  import opened Collections
  import opened Text

  const NicknameKeywords: seq<string> :=
    ["昵称", "姓名", "用户名", "名字", "用户", "name", "nickname",
     "微信昵称", "群昵称", "参与者", "打卡人", "用户昵称"]

  const TimeKeywords: seq<string> :=
    ["提交时间", "时间", "打卡时间", "参与时间", "上传时间",
     "time", "submit_time", "timestamp", "日期时间"]

  /** A cell of the parsed sheet: a string, any other value (number, date, ...)
      carried as the text `str()` prints for it, or an empty cell. */
  datatype Cell = Str(s: string) | Num(text: string) | Missing(blank: Blank)

  /** What pandas puts in an empty cell: NaN, or NaT in a column it reads as
      dates and times. Both count as missing (`pd.isna`, `dropna`); they
      differ in what `str()` prints for them. */
  datatype Blank = NaN | NaT

  /** A parsed sheet (the DataFrame read with the second row as header):
      column names as `str()` prints them, the cells column by column, and
      `labelError`: None when every column label is a string, otherwise the
      text of the `TypeError` that joining the labels into one string raises. */
  datatype Sheet = Sheet(headers: seq<string>, columns: seq<seq<Cell>>, labelError: Option<string>) {

    function Height(): nat {
      if columns == [] then 0 else |columns[0]|
    }

    predicate WellFormed() {
      && |columns| == |headers|
      && forall j :: 0 <= j < |columns| ==> |columns[j]| == Height()
    }

    /** `df.empty`: no columns or no rows. */
    predicate IsEmpty() {
      |headers| == 0 || Height() == 0
    }
  }

  // ---------------------------------------------------------------------
  // Column discovery

  /** The two matching passes: the stripped header equals the keyword, or the
      keyword occurs anywhere in the (unstripped) header. */
  datatype Pass = Exact | Partial

  predicate Hits(pass: Pass, keyword: string, header: string) {
    match pass
    case Exact => Strip(header) == keyword
    case Partial => IsSubstring(keyword, header)
  }

  predicate AnyHit(pass: Pass, keywords: seq<string>, headers: seq<string>) {
    exists i, j :: 0 <= i < |keywords| && 0 <= j < |headers| && Hits(pass, keywords[i], headers[j])
  }

  /** A keyword index and a column index. */
  datatype Hit = Hit(keyword: nat, column: nat)

  /** `h` is where a pass stops: keyword `h.keyword` hits column `h.column`, no
      column to its left, and no earlier keyword hits any column. */
  predicate IsFirstHit(pass: Pass, keywords: seq<string>, headers: seq<string>, h: Hit) {
    && h.keyword < |keywords| && h.column < |headers|
    && Hits(pass, keywords[h.keyword], headers[h.column])
    && (forall j :: 0 <= j < h.column ==> !Hits(pass, keywords[h.keyword], headers[j]))
    && (forall i, j :: 0 <= i < h.keyword && 0 <= j < |headers| ==> !Hits(pass, keywords[i], headers[j]))
  }

  /** Column `c` is the one a pass over `keywords` returns. */
  predicate Wins(pass: Pass, keywords: seq<string>, headers: seq<string>, c: nat) {
    exists i :: 0 <= i < |keywords| && IsFirstHit(pass, keywords, headers, Hit(i, c))
  }

  /** The inner loop `for col in columns`: the leftmost column hit by `keyword`. */
  function ColumnHit(pass: Pass, keyword: string, headers: seq<string>, from: nat): (r: Option<nat>)
    requires from <= |headers|
    decreases |headers| - from
    ensures r.None? ==> forall j :: from <= j < |headers| ==> !Hits(pass, keyword, headers[j])
    ensures r.Some? ==> from <= r.value < |headers| && Hits(pass, keyword, headers[r.value])
    ensures r.Some? ==> forall j :: from <= j < r.value ==> !Hits(pass, keyword, headers[j])
  {
    if from == |headers| then None
    else if Hits(pass, keyword, headers[from]) then Some(from)
    else ColumnHit(pass, keyword, headers, from + 1)
  }

  /** The outer loop `for keyword in KEYWORDS`: keywords in list order, each
      tried against every column before the next keyword. */
  function KeywordHit(pass: Pass, keywords: seq<string>, headers: seq<string>, from: nat): (r: Option<Hit>)
    requires from <= |keywords|
    decreases |keywords| - from
    ensures r.None? ==> forall i, j :: from <= i < |keywords| && 0 <= j < |headers| ==> !Hits(pass, keywords[i], headers[j])
    ensures r.Some? ==> from <= r.value.keyword < |keywords| && r.value.column < |headers|
    ensures r.Some? ==> Hits(pass, keywords[r.value.keyword], headers[r.value.column])
    ensures r.Some? ==> forall j :: 0 <= j < r.value.column ==> !Hits(pass, keywords[r.value.keyword], headers[j])
    ensures r.Some? ==> forall i, j :: from <= i < r.value.keyword && 0 <= j < |headers| ==> !Hits(pass, keywords[i], headers[j])
  {
    if from == |keywords| then None
    else match ColumnHit(pass, keywords[from], headers, 0)
      case Some(c) => Some(Hit(from, c))
      case None => KeywordHit(pass, keywords, headers, from + 1)
  }

  /** One complete pass over all keywords. */
  function Search(pass: Pass, keywords: seq<string>, headers: seq<string>): (r: Option<nat>)
    ensures r.None? <==> !AnyHit(pass, keywords, headers)
    ensures r.Some? ==> Wins(pass, keywords, headers, r.value)
  {
    match KeywordHit(pass, keywords, headers, 0)
    case Some(h) =>
      assert IsFirstHit(pass, keywords, headers, h);
      Some(h.column)
    case None => None
  }

  /** `df[col].dropna().head(10)` */
  function Sample(column: seq<Cell>): (r: seq<Cell>)
    ensures |r| <= 10 && |r| <= |column|
    ensures forall x :: x in r ==> !x.Missing?
  {
    var present := NonMissing(column);
    if |present| <= 10 then present else present[..10]
  }

  function NonMissing(column: seq<Cell>): (r: seq<Cell>)
    ensures |r| <= |column|
    ensures forall x :: x in r ==> x in column && !x.Missing?
  {
    if column == [] then []
    else (if column[0].Missing? then [] else [column[0]]) + NonMissing(column[1..])
  }

  /** How many sampled values are strings with something besides whitespace. */
  function TextCount(sample: seq<Cell>): (n: nat)
    ensures n <= |sample|
  {
    if sample == [] then 0
    else (if sample[0].Str? && Strip(sample[0].s) != "" then 1 else 0) + TextCount(sample[1..])
  }

  /** `text_count / len(sample) > 0.7` on a non-empty sample of at most ten
      values (for such ratios the float comparison is exact). */
  predicate MostlyText(sample: seq<Cell>) {
    |sample| > 0 && 10 * TextCount(sample) > 7 * |sample|
  }

  /** `find_nickname_column`: the exact pass over every keyword, then the
      substring pass, then the first column if its sample is mostly text
      (NicknameColumnChoice). */
  function FindNicknameColumn(sheet: Sheet): (r: Option<nat>)
    requires sheet.WellFormed()
    ensures r.Some? ==> r.value < |sheet.headers|
  {
    match Search(Exact, NicknameKeywords, sheet.headers)
    case Some(c) => Some(c)
    case None =>
      match Search(Partial, NicknameKeywords, sheet.headers)
      case Some(c) => Some(c)
      case None =>
        if |sheet.headers| > 0 && MostlyText(Sample(sheet.columns[0])) then Some(0) else None
  }

  /** Which column `find_nickname_column` settles on: the first exact hit in
      keyword order, else the first substring hit, else the first column when
      it is mostly text, else none. */
  lemma NicknameColumnChoice(sheet: Sheet)
    requires sheet.WellFormed()
    ensures var r, h := FindNicknameColumn(sheet), sheet.headers;
      && (AnyHit(Exact, NicknameKeywords, h) ==> r.Some? && Wins(Exact, NicknameKeywords, h, r.value))
      && (!AnyHit(Exact, NicknameKeywords, h) && AnyHit(Partial, NicknameKeywords, h) ==>
            r.Some? && Wins(Partial, NicknameKeywords, h, r.value))
      && (!AnyHit(Exact, NicknameKeywords, h) && !AnyHit(Partial, NicknameKeywords, h) ==>
            (r.Some? <==> |h| > 0 && MostlyText(Sample(sheet.columns[0]))) && (r.Some? ==> r.value == 0))
  {
  }

  /** `find_time_column`: the same two passes over the time keywords, and no
      fallback (TimeColumnChoice). */
  function FindTimeColumn(headers: seq<string>): (r: Option<nat>)
    ensures r.Some? ==> r.value < |headers|
  {
    match Search(Exact, TimeKeywords, headers)
    case Some(c) => Some(c)
    case None => Search(Partial, TimeKeywords, headers)
  }

  /** Which column `find_time_column` settles on: the first exact hit in
      keyword order, else the first substring hit, else none. */
  lemma TimeColumnChoice(headers: seq<string>)
    ensures var r := FindTimeColumn(headers);
      && (AnyHit(Exact, TimeKeywords, headers) ==> r.Some? && Wins(Exact, TimeKeywords, headers, r.value))
      && (!AnyHit(Exact, TimeKeywords, headers) && AnyHit(Partial, TimeKeywords, headers) ==>
            r.Some? && Wins(Partial, TimeKeywords, headers, r.value))
      && (!AnyHit(Exact, TimeKeywords, headers) && !AnyHit(Partial, TimeKeywords, headers) ==> r.None?)
  {
  }

  /** The usual sign-up sheet: a serial number, a nickname and a submission
      time. The nickname column is "昵称" and the time column "提交时间". */
  lemma ColumnDiscoveryExample()
    ensures var sheet := Sheet(["编号", "昵称", "提交时间"],
                               [[Num("1"), Num("2")], [Str("Alice"), Str("Bob")],
                                [Str("2024-01-01"), Str("2024-01-02")]], None);
            FindNicknameColumn(sheet) == Some(1) && FindTimeColumn(sheet.headers) == Some(2)
  {
    ExampleNicknameHit(["编号", "昵称", "提交时间"]);
    ExampleTimeHit(["编号", "昵称", "提交时间"]);
  }

  /** When the first keyword hits column `c` and no column to its left, the
      pass returns `c`, whatever the later keywords would hit. */
  lemma FirstKeywordWins(pass: Pass, keywords: seq<string>, headers: seq<string>, c: nat)
    requires |keywords| > 0 && c < |headers|
    requires Hits(pass, keywords[0], headers[c])
    requires forall j :: 0 <= j < c ==> !Hits(pass, keywords[0], headers[j])
    ensures Search(pass, keywords, headers) == Some(c)
  {
    var col := ColumnHit(pass, keywords[0], headers, 0);
    assert col.Some? by {
      assert Hits(pass, keywords[0], headers[c]);
    }
    assert col.value == c by {
      assert col.value <= c by {
        assert !(0 <= c < col.value) by { assert Hits(pass, keywords[0], headers[c]); }
      }
    }
    assert KeywordHit(pass, keywords, headers, 0) == Some(Hit(0, c));
  }

  /** No header of the sign-up sheet has whitespace to strip. */
  lemma ExampleHeadersTrimmed(headers: seq<string>)
    requires headers == ["编号", "昵称", "提交时间"]
    ensures forall j :: 0 <= j < |headers| ==> Strip(headers[j]) == headers[j]
  {
    StripTrimmed(headers[0]);
    StripTrimmed(headers[1]);
    StripTrimmed(headers[2]);
  }

  /** The exact pass finds "昵称", the first nickname keyword, in column 1. */
  lemma ExampleNicknameHit(headers: seq<string>)
    requires headers == ["编号", "昵称", "提交时间"]
    ensures Search(Exact, NicknameKeywords, headers) == Some(1)
  {
    ExampleHeadersTrimmed(headers);
    FirstKeywordWins(Exact, NicknameKeywords, headers, 1);
  }

  /** The exact pass finds "提交时间", the first time keyword, in column 2. */
  lemma ExampleTimeHit(headers: seq<string>)
    requires headers == ["编号", "昵称", "提交时间"]
    ensures Search(Exact, TimeKeywords, headers) == Some(2)
  {
    ExampleHeadersTrimmed(headers);
    FirstKeywordWins(Exact, TimeKeywords, headers, 2);
  }

  // ---------------------------------------------------------------------
  // Nickname cleaning

  /** Python's `\w` beyond ASCII (letters and digits of every script) is left
      abstract: nothing below depends on which non-ASCII characters it holds. */
  const NonAsciiWord: char -> bool

  /** `\w` in a `str` pattern. */
  predicate IsWordChar(c: char) {
    || ('a' <= c <= 'z') || ('A' <= c <= 'Z') || ('0' <= c <= '9') || c == '_'
    || ('\U{80}' <= c && NonAsciiWord(c))
  }

  /** The two CJK blocks the pattern names: U+4E00..U+9FFF and U+3400..U+4DBF. */
  predicate IsCjk(c: char) {
    ('\U{4e00}' <= c <= '\U{9fff}') || ('\U{3400}' <= c <= '\U{4dbf}')
  }

  /** What `[^\w一-鿿㐀-䶿\s]` does not match: the characters
      that survive the decoration removal. */
  predicate Kept(c: char) {
    IsWordChar(c) || IsCjk(c) || IsSpace(c)
  }

  /** `re.sub(r'[^\w一-鿿㐀-䶿\s]', '', s)` */
  function RemoveDecorations(s: string): (r: string)
    ensures AllKept(r)
  {
    if s == [] then []
    else (if Kept(s[0]) then [s[0]] else []) + RemoveDecorations(s[1..])
  }

  /** `re.sub(r'\s+', ' ', s)` */
  function CollapseSpaces(s: string): (r: string)
    decreases |s|
  {
    if s == [] then []
    else if IsSpace(s[0]) then
      [' '] + CollapseSpaces(TrimLeft(s))
    else [s[0]] + CollapseSpaces(s[1..])
  }

  /** The normal form `clean_nickname` produces: only kept characters, no
      whitespace at either end, and every whitespace run one plain space. */
  predicate IsClean(r: string) {
    AllKept(r) && (r == [] || (!IsSpace(r[0]) && !IsSpace(r[|r| - 1]))) && SingleSpaced(r)
  }

  predicate AllKept(r: string) {
    forall i :: 0 <= i < |r| ==> Kept(r[i])
  }

  /** Every whitespace character is a plain space and none is followed by
      another. */
  predicate SingleSpaced(r: string) {
    && (forall i :: 0 <= i < |r| && IsSpace(r[i]) ==> r[i] == ' ')
    && (forall i, j :: 0 <= i && j == i + 1 < |r| && IsSpace(r[i]) ==> !IsSpace(r[j]))
  }

  /** The non-whitespace characters of `s`, in order. */
  function Letters(s: string): string {
    if s == [] then []
    else (if IsSpace(s[0]) then [] else [s[0]]) + Letters(s[1..])
  }

  /** The non-whitespace characters of `s` that the decoration removal keeps. */
  function KeptLetters(s: string): string {
    if s == [] then []
    else (if Kept(s[0]) && !IsSpace(s[0]) then [s[0]] else []) + KeptLetters(s[1..])
  }

  function CleanText(s: string): string {
    Strip(CollapseSpaces(RemoveDecorations(Strip(s))))
  }

  /** `clean_nickname`: a missing cell becomes "", anything else is printed,
      stripped, stripped of decorations, and has its whitespace normalised. The
      result is in normal form, keeps exactly the word and CJK characters of
      the input in their order, and cleaning it again changes nothing. */
  function CleanNickname(cell: Cell): (r: string)
    ensures cell.Missing? ==> r == ""
    ensures IsClean(r)
  {
    match cell
    case Missing(_) => ""
    case Str(s) => CleanTextIsClean(s); CleanText(s)
    case Num(t) => CleanTextIsClean(t); CleanText(t)
  }

  /** Cleaning drops only characters outside the kept classes and whitespace:
      the kept non-space characters survive, in order. */
  lemma CleanNicknameLetters(cell: Cell)
    ensures cell.Str? ==> Letters(CleanNickname(cell)) == KeptLetters(cell.s)
    ensures cell.Num? ==> Letters(CleanNickname(cell)) == KeptLetters(cell.text)
  {
    match cell
    case Missing(_) =>
    case Str(s) => CleanTextLetters(s);
    case Num(t) => CleanTextLetters(t);
  }

  /** Cleaning is idempotent: a cleaned nickname cleans to itself. */
  lemma CleanNicknameIdempotent(cell: Cell)
    ensures CleanNickname(Str(CleanNickname(cell))) == CleanNickname(cell)
  {
    var r := CleanNickname(cell);
    CleanOfCleanText(r);
  }

  lemma {:induction false} CollapseStartsWith(s: string)
    requires s != [] && !IsSpace(s[0])
    ensures CollapseSpaces(s) != [] && CollapseSpaces(s)[0] == s[0]
  {
  }

  lemma {:induction false} CollapseIsClean(s: string)
    requires AllKept(s)
    decreases |s|
    ensures AllKept(CollapseSpaces(s)) && SingleSpaced(CollapseSpaces(s))
  {
    if s == [] {
    } else if IsSpace(s[0]) {
      var rest := TrimLeft(s);
      KeptSuffix(s, LeadingSpaces(s));
      CollapseIsClean(rest);
      if rest != [] { CollapseStartsWith(rest); }
      ConsIsClean(' ', CollapseSpaces(rest));
    } else {
      KeptSuffix(s, 1);
      CollapseIsClean(s[1..]);
      ConsIsClean(s[0], CollapseSpaces(s[1..]));
    }
  }

  lemma KeptSuffix(s: string, k: nat)
    requires AllKept(s) && k <= |s|
    ensures AllKept(s[k..])
  {
    assert forall i :: 0 <= i < |s| - k ==> s[k..][i] == s[k + i];
  }

  /** Putting a kept character in front of a normal-form body keeps the
      character classes and the single spacing, provided a space is plain and
      not followed by another. */
  lemma ConsIsClean(c: char, t: string)
    requires Kept(c) && AllKept(t) && SingleSpaced(t)
    requires IsSpace(c) ==> c == ' ' && (t == [] || !IsSpace(t[0]))
    ensures AllKept([c] + t) && SingleSpaced([c] + t)
  {
    var r := [c] + t;
    assert forall i :: 1 <= i < |r| ==> r[i] == t[i - 1];
    forall i, j | 0 <= i && j == i + 1 < |r| && IsSpace(r[i])
      ensures !IsSpace(r[j])
    {
      if i >= 1 { assert r[i] == t[i - 1] && r[j] == t[j - 1]; }
    }
  }

  lemma CleanTextIsClean(s: string)
    ensures IsClean(CleanText(s))
  {
    var d := RemoveDecorations(Strip(s));
    CollapseIsClean(d);
    StripOfCollapsedIsClean(CollapseSpaces(d));
  }

  /** Stripping a string whose characters are kept and whose whitespace runs
      are single plain spaces puts it in normal form. */
  lemma StripOfCollapsedIsClean(c: string)
    requires AllKept(c) && SingleSpaced(c)
    ensures IsClean(Strip(c))
  {
    SliceIsClean(c, StripStart(c), StripEnd(c));
  }

  /** A slice keeps the character classes and the single spacing. */
  lemma SliceIsClean(c: string, a: nat, b: nat)
    requires AllKept(c) && SingleSpaced(c) && a <= b <= |c|
    ensures AllKept(c[a..b]) && SingleSpaced(c[a..b])
  {
    var r := c[a..b];
    assert forall i :: 0 <= i < |r| ==> r[i] == c[a + i];
    SpacedSlice(c, a, b);
  }

  lemma SpacedSlice(c: string, a: nat, b: nat)
    requires SingleSpaced(c) && a <= b <= |c|
    ensures SingleSpaced(c[a..b])
  {
    var r := c[a..b];
    assert forall i :: 0 <= i < |r| ==> r[i] == c[a + i];
    forall i, j | 0 <= i && j == i + 1 < |r| && IsSpace(r[i]) ensures !IsSpace(r[j]) {
      assert r[i] == c[a + i] && r[j] == c[a + j];
    }
  }

  lemma {:induction false} LettersAppend(a: string, b: string)
    ensures Letters(a + b) == Letters(a) + Letters(b)
  {
    if a == [] {
      assert a + b == b;
    } else {
      assert (a + b)[0] == a[0] && (a + b)[1..] == a[1..] + b;
      LettersAppend(a[1..], b);
    }
  }

  lemma {:induction false} LettersOfSpaces(s: string)
    requires forall i :: 0 <= i < |s| ==> IsSpace(s[i])
    ensures Letters(s) == []
  {
    if s != [] { LettersOfSpaces(s[1..]); }
  }

  lemma LettersOfStrip(s: string)
    ensures Letters(Strip(s)) == Letters(s)
  {
    var a, e, r := StripStart(s), StripEnd(s), Strip(s);
    StripParts(s);
    LettersAppend(s[..a] + r, s[e..]);
    LettersAppend(s[..a], r);
    LettersOfSpaces(s[..a]);
    LettersOfSpaces(s[e..]);
  }

  lemma {:induction false} LettersOfCollapse(s: string)
    decreases |s|
    ensures Letters(CollapseSpaces(s)) == Letters(s)
  {
    if s == [] {
    } else if IsSpace(s[0]) {
      var rest := TrimLeft(s);
      LettersOfCollapse(rest);
      assert CollapseSpaces(s) == [' '] + CollapseSpaces(rest);
      LettersAppend([' '], CollapseSpaces(rest));
      var k := |s| - |rest|;
      assert s == s[..k] + rest;
      LeadingAreSpaces(s);
      LettersAppend(s[..k], rest);
      LettersOfSpaces(s[..k]);
    } else {
      LettersOfCollapse(s[1..]);
      assert CollapseSpaces(s) == [s[0]] + CollapseSpaces(s[1..]);
      LettersAppend([s[0]], CollapseSpaces(s[1..]));
    }
  }

  lemma {:induction false} LettersOfRemoval(s: string)
    ensures Letters(RemoveDecorations(s)) == KeptLetters(s)
  {
    if s != [] {
      LettersOfRemoval(s[1..]);
      LettersAppend(if Kept(s[0]) then [s[0]] else [], RemoveDecorations(s[1..]));
    }
  }

  lemma {:induction false} KeptLettersAppend(a: string, b: string)
    ensures KeptLetters(a + b) == KeptLetters(a) + KeptLetters(b)
  {
    if a == [] {
      assert a + b == b;
    } else {
      assert (a + b)[0] == a[0] && (a + b)[1..] == a[1..] + b;
      KeptLettersAppend(a[1..], b);
    }
  }

  lemma {:induction false} KeptLettersOfSpaces(s: string)
    requires forall i :: 0 <= i < |s| ==> IsSpace(s[i])
    ensures KeptLetters(s) == []
  {
    if s != [] { KeptLettersOfSpaces(s[1..]); }
  }

  lemma KeptLettersOfStrip(s: string)
    ensures KeptLetters(Strip(s)) == KeptLetters(s)
  {
    var a, e, r := StripStart(s), StripEnd(s), Strip(s);
    StripParts(s);
    KeptLettersAppend(s[..a] + r, s[e..]);
    KeptLettersAppend(s[..a], r);
    KeptLettersOfSpaces(s[..a]);
    KeptLettersOfSpaces(s[e..]);
  }

  lemma CleanTextLetters(s: string)
    ensures Letters(CleanText(s)) == KeptLetters(s)
  {
    var s1 := Strip(s);
    var s2 := RemoveDecorations(s1);
    var s3 := CollapseSpaces(s2);
    calc {
      Letters(CleanText(s));
      { LettersOfStrip(s3); }
      Letters(s3);
      { LettersOfCollapse(s2); }
      Letters(s2);
      { LettersOfRemoval(s1); }
      KeptLetters(s1);
      { KeptLettersOfStrip(s); }
      KeptLetters(s);
    }
  }

  lemma {:induction false} RemovalKeepsKept(s: string)
    requires AllKept(s)
    ensures RemoveDecorations(s) == s
  {
    if s != [] {
      assert AllKept(s[1..]) by { assert forall i :: 0 <= i < |s| - 1 ==> s[1..][i] == s[i + 1]; }
      RemovalKeepsKept(s[1..]);
      assert s == [s[0]] + s[1..];
    }
  }

  lemma {:induction false} CollapseKeepsSingleSpaces(s: string)
    requires SingleSpaced(s)
    ensures CollapseSpaces(s) == s
  {
    if s != [] {
      var t := s[1..];
      SpacedSlice(s, 1, |s|);
      assert s[1..|s|] == t;
      CollapseKeepsSingleSpaces(t);
      if IsSpace(s[0]) {
        assert t == [] || !IsSpace(t[0]) by { if t != [] { assert t[0] == s[1]; } }
        assert LeadingSpaces(t) == 0;
        assert LeadingSpaces(s) == 1;
        assert TrimLeft(s) == t;
      }
      assert s == [s[0]] + t;
    }
  }

  /** A string already in normal form is left alone by the cleaning. */
  lemma CleanOfCleanText(s: string)
    requires IsClean(s)
    ensures CleanText(s) == s
  {
    StripTrimmed(s);
    assert Strip(s) == s;
    RemovalKeepsKept(s);
    assert RemoveDecorations(s) == s;
    CollapseKeepsSingleSpaces(s);
    assert CollapseSpaces(s) == s;
  }

  // ---------------------------------------------------------------------
  // Extraction

  /** What reading the workbook produced: a sheet, or the text of the
      exception the reader raised. */
  datatype Read = Parsed(sheet: Sheet) | Unreadable(reason: string) {
    predicate WellFormed() {
      Parsed? ==> sheet.WellFormed()
    }
  }

  /** The ways extraction gives up, each with the message the program shows. */
  datatype Failure =
    | UnsupportedFormat(fileName: string)
    | EmptyFile(fileName: string)
    | NoNicknameColumn(headers: seq<string>)
    | Crashed(fileName: string, reason: string)

  function Join(parts: seq<string>, sep: string): string {
    if parts == [] then ""
    else if |parts| == 1 then parts[0]
    else parts[0] + sep + Join(parts[1..], sep)
  }

  /** Every part occurs in the joined string. */
  lemma {:induction false} JoinContains(parts: seq<string>, sep: string, h: string)
    requires h in parts
    ensures IsSubstring(h, Join(parts, sep))
  {
    var j := Join(parts, sep);
    if parts[0] == h {
      assert OccursAt(h, j, 0);
    } else {
      var rest := Join(parts[1..], sep);
      JoinContains(parts[1..], sep, h);
      var i: nat :| i <= |rest| && OccursAt(h, rest, i);
      var k := |parts[0] + sep|;
      assert j == parts[0] + sep + rest;
      assert j[k + i..k + i + |h|] == rest[i..i + |h|];
      assert OccursAt(h, j, k + i);
    }
  }

  const UnsupportedText := "不支持的文件格式: "
  const EmptyText := "文件为空: "
  const NoColumnText := "未找到昵称列，可用列名: "
  const CrashText := "处理文件 "
  const CrashText2 := " 时出错: "
  function Message(f: Failure): (m: string)
    ensures m != []
    ensures f.UnsupportedFormat? || f.EmptyFile? || f.Crashed? ==> IsSubstring(f.fileName, m)
    ensures f.NoNicknameColumn? ==> forall h :: h in f.headers ==> IsSubstring(h, m)
  {
    match f
    case UnsupportedFormat(name) =>
      var m := UnsupportedText + name;
      assert OccursAt(name, m, |m| - |name|);
      m
    case EmptyFile(name) =>
      var m := EmptyText + name;
      assert OccursAt(name, m, |m| - |name|);
      m
    case NoNicknameColumn(headers) =>
      var m := NoColumnText + Join(headers, ", ");
      forall h | h in headers ensures IsSubstring(h, m) {
        JoinContains(headers, ", ", h);
        var i: nat :| i <= |Join(headers, ", ")| && OccursAt(h, Join(headers, ", "), i);
        assert m[|NoColumnText| + i..|NoColumnText| + i + |h|] == Join(headers, ", ")[i..i + |h|];
        assert OccursAt(h, m, |NoColumnText| + i);
      }
      m
    case Crashed(name, reason) =>
      var m := CrashText + name + CrashText2 + reason;
      assert OccursAt(name, m, |CrashText|);
      m
  }

  /** The extensions the reader itself accepts (case-sensitive). */
  predicate ReaderSupports(fileName: string) {
    EndsWith(fileName, ".xlsx") || EndsWith(fileName, ".xls")
  }

  /** Where the nickname and time values come from. */
  datatype Columns = Columns(nickname: nat, time: Option<nat>)

  /** Every branch of `extract_nicknames_and_times_from_file` before its loop. */
  function Locate(fileName: string, read: Read): (r: Result<Columns, Failure>)
    requires read.WellFormed()
    ensures r.Success? <==>
              ReaderSupports(fileName) && read.Parsed? && !read.sheet.IsEmpty()
              && FindNicknameColumn(read.sheet).Some?
    ensures !ReaderSupports(fileName) ==> r == Failure(UnsupportedFormat(fileName))
    ensures ReaderSupports(fileName) && read.Unreadable? ==> r == Failure(Crashed(fileName, read.reason))
    ensures ReaderSupports(fileName) && read.Parsed? && read.sheet.IsEmpty() ==> r == Failure(EmptyFile(fileName))
    ensures ReaderSupports(fileName) && read.Parsed? && !read.sheet.IsEmpty() && FindNicknameColumn(read.sheet).None? ==>
              r == Failure(if read.sheet.labelError.Some? then Crashed(fileName, read.sheet.labelError.value)
                           else NoNicknameColumn(read.sheet.headers))
    ensures r.Success? ==> r.value.nickname < |read.sheet.headers|
    ensures r.Success? ==> r.value.time == FindTimeColumn(read.sheet.headers)
  {
    if !ReaderSupports(fileName) then Failure(UnsupportedFormat(fileName))
    else match read
      case Unreadable(reason) => Failure(Crashed(fileName, reason))
      case Parsed(sheet) =>
        if sheet.IsEmpty() then Failure(EmptyFile(fileName))
        else match FindNicknameColumn(sheet)
          case None =>
            if sheet.labelError.Some? then Failure(Crashed(fileName, sheet.labelError.value))
            else Failure(NoNicknameColumn(sheet.headers))
          case Some(c) => Success(Columns(c, FindTimeColumn(sheet.headers)))
  }

  /** `str(time_val) if time_val is not None else ""`: `None` stands for "no
      time column"; an empty cell prints "nan", or "NaT" in a column of dates. */
  function TimeText(cell: Option<Cell>): string {
    match cell
    case None => ""
    case Some(Missing(NaN)) => "nan"
    case Some(Missing(NaT)) => "NaT"
    case Some(Str(s)) => s
    case Some(Num(t)) => t
  }

  function Cleaned(cells: seq<Cell>): (r: seq<string>)
    ensures |r| == |cells|
    ensures forall i :: 0 <= i < |r| ==> IsClean(r[i])
  {
    if cells == [] then []
    else Cleaned(cells[..|cells| - 1]) + [CleanNickname(cells[|cells| - 1])]
  }

  function TimeTexts(cells: seq<Option<Cell>>): (r: seq<string>)
    ensures |r| == |cells|
    ensures forall i :: 0 <= i < |cells| ==> r[i] == TimeText(cells[i])
  {
    if cells == [] then []
    else TimeTexts(cells[..|cells| - 1]) + [TimeText(cells[|cells| - 1])]
  }

  /** `df[time_column].tolist() if time_column else [None] * len(...)` */
  function RawTimes(sheet: Sheet, time: Option<nat>): (r: seq<Option<Cell>>)
    requires sheet.WellFormed()
    requires time.Some? ==> time.value < |sheet.headers|
    ensures |r| == sheet.Height()
  {
    match time
    case None => seq(sheet.Height(), _ => None)
    case Some(t) => seq(sheet.Height(), i requires 0 <= i < sheet.Height() => Some(sheet.columns[t][i]))
  }

  datatype Listing = Listing(nicknames: seq<string>, times: seq<string>)

  /** The rows that survive the loop: non-empty names, each at its first
      occurrence, with the time text of that row. */
  function FirstOccurrences(names: seq<string>, texts: seq<string>): (r: Listing)
    requires |texts| == |names|
    ensures |r.times| == |r.nicknames|
    ensures Distinct(r.nicknames)
    ensures forall i :: 0 <= i < |r.nicknames| ==> r.nicknames[i] != ""
    ensures forall x :: x in r.nicknames <==> x != "" && x in names
  {
    if names == [] then Listing([], [])
    else
      var n := |names| - 1;
      var prev := FirstOccurrences(names[..n], texts[..n]);
      assert forall x :: x in names <==> x in names[..n] || x == names[n];
      if names[n] != "" && names[n] !in prev.nicknames
      then Listing(prev.nicknames + [names[n]], prev.times + [texts[n]])
      else prev
  }

  /** Each nickname of `l` carries the time of the first row that bears it, and
      the nicknames come in the order of those first rows. */
  predicate FromFirstRows(names: seq<string>, texts: seq<string>, l: Listing) {
    && |texts| == |names| && |l.times| == |l.nicknames|
    && (forall i :: 0 <= i < |l.nicknames| ==> l.nicknames[i] in names)
    && (forall i :: 0 <= i < |l.nicknames| ==> l.times[i] == texts[FirstIndex(names, l.nicknames[i])])
    && (forall i, j :: 0 <= i < j < |l.nicknames| ==>
          FirstIndex(names, l.nicknames[i]) < FirstIndex(names, l.nicknames[j]))
  }

  /** Each kept nickname carries the time of the first row that bears it, and
      the nicknames come in the order of those first rows. */
  lemma {:induction false} FirstOccurrencesRows(names: seq<string>, texts: seq<string>)
    requires |texts| == |names|
    ensures FromFirstRows(names, texts, FirstOccurrences(names, texts))
  {
    if names != [] {
      var n := |names| - 1;
      var prev := FirstOccurrences(names[..n], texts[..n]);
      FirstOccurrencesRows(names[..n], texts[..n]);
      FromFirstRowsLift(names, texts, n, prev);
      if names[n] != "" && names[n] !in prev.nicknames {
        assert names[n] !in names[..n];
        FirstIndexOfNew(names);
        SnocTimes(names, texts, prev);
        SnocOrder(names, texts, prev);
      }
    }
  }

  /** A listing built from a prefix of the rows keeps its property for all rows. */
  lemma FromFirstRowsLift(names: seq<string>, texts: seq<string>, n: nat, l: Listing)
    requires |texts| == |names| && n <= |names|
    requires FromFirstRows(names[..n], texts[..n], l)
    ensures FromFirstRows(names, texts, l)
    ensures forall i :: 0 <= i < |l.nicknames| ==> FirstIndex(names, l.nicknames[i]) < n
  {
    forall i | 0 <= i < |l.nicknames|
      ensures l.nicknames[i] in names
      ensures FirstIndex(names, l.nicknames[i]) == FirstIndex(names[..n], l.nicknames[i]) < n
    {
      FirstIndexPrefix(names, n, l.nicknames[i]);
    }
    forall i | 0 <= i < |l.nicknames|
      ensures l.times[i] == texts[FirstIndex(names, l.nicknames[i])]
    {
      var k := FirstIndex(names[..n], l.nicknames[i]);
      assert texts[..n][k] == texts[k];
    }
  }

  /** Appending the last row's nickname, new to the earlier rows, and its time. */
  lemma SnocTimes(names: seq<string>, texts: seq<string>, l: Listing)
    requires |texts| == |names| && names != []
    requires FromFirstRows(names, texts, l)
    requires FirstIndex(names, names[|names| - 1]) == |names| - 1
    ensures var r := Listing(l.nicknames + [names[|names| - 1]], l.times + [texts[|names| - 1]]);
      forall i :: 0 <= i < |r.nicknames| ==> r.nicknames[i] in names && r.times[i] == texts[FirstIndex(names, r.nicknames[i])]
  {
    var n := |names| - 1;
    var r := Listing(l.nicknames + [names[n]], l.times + [texts[n]]);
    forall i | 0 <= i < |r.nicknames|
      ensures r.nicknames[i] in names && r.times[i] == texts[FirstIndex(names, r.nicknames[i])]
    {
      if i < |l.nicknames| {
        assert r.nicknames[i] == l.nicknames[i] && r.times[i] == l.times[i];
      } else {
        assert r.nicknames[i] == names[n] && r.times[i] == texts[n];
      }
    }
  }

  lemma SnocOrder(names: seq<string>, texts: seq<string>, l: Listing)
    requires |texts| == |names| && names != []
    requires FromFirstRows(names, texts, l)
    requires forall i :: 0 <= i < |l.nicknames| ==> FirstIndex(names, l.nicknames[i]) < |names| - 1
    requires FirstIndex(names, names[|names| - 1]) == |names| - 1
    ensures var r := l.nicknames + [names[|names| - 1]];
      forall i, j :: 0 <= i < j < |r| ==> FirstIndex(names, r[i]) < FirstIndex(names, r[j])
  {
    var nicknames := l.nicknames;
    var r := nicknames + [names[|names| - 1]];
    forall i, j | 0 <= i < j < |r|
      ensures FirstIndex(names, r[i]) < FirstIndex(names, r[j])
    {
      assert r[i] == nicknames[i];
      if j < |nicknames| {
        assert r[j] == nicknames[j];
      }
    }
  }

  /** A last element that does not occur earlier is first found at the end. */
  lemma FirstIndexOfNew(s: seq<string>)
    requires s != [] && s[|s| - 1] !in s[..|s| - 1]
    ensures FirstIndex(s, s[|s| - 1]) == |s| - 1
  {
  }

  lemma {:induction false} FirstIndexPrefix(s: seq<string>, n: nat, x: string)
    requires n <= |s| && x in s[..n]
    ensures FirstIndex(s, x) == FirstIndex(s[..n], x)
  {
    var k := FirstIndex(s[..n], x);
    assert s[k] == x;
  }

  /** One more row for FirstOccurrences. */
  lemma FirstOccurrencesSnoc(names: seq<string>, texts: seq<string>, x: string, t: string)
    requires |texts| == |names|
    ensures var prev := FirstOccurrences(names, texts);
      FirstOccurrences(names + [x], texts + [t]) ==
        if x != "" && x !in prev.nicknames then Listing(prev.nicknames + [x], prev.times + [t]) else prev
  {
    assert (names + [x])[..|names|] == names;
    assert (texts + [t])[..|texts|] == texts;
  }

  lemma PrefixSnoc(rawNames: seq<Cell>, rawTimes: seq<Option<Cell>>, k: nat)
    requires k < |rawNames| && k < |rawTimes|
    ensures Cleaned(rawNames[..k + 1]) == Cleaned(rawNames[..k]) + [CleanNickname(rawNames[k])]
    ensures TimeTexts(rawTimes[..k + 1]) == TimeTexts(rawTimes[..k]) + [TimeText(rawTimes[k])]
  {
    assert rawNames[..k + 1][..k] == rawNames[..k];
    assert rawTimes[..k + 1][..k] == rawTimes[..k];
  }

  /** One row of the loop below, in terms of FirstOccurrences. */
  lemma CollectStep(rawNames: seq<Cell>, rawTimes: seq<Option<Cell>>, k: nat, l: Listing)
    requires |rawTimes| == |rawNames| && k < |rawNames|
    requires l == FirstOccurrences(Cleaned(rawNames[..k]), TimeTexts(rawTimes[..k]))
    ensures var c, t := CleanNickname(rawNames[k]), TimeText(rawTimes[k]);
      FirstOccurrences(Cleaned(rawNames[..k + 1]), TimeTexts(rawTimes[..k + 1])) ==
        if c != "" && c !in l.nicknames then Listing(l.nicknames + [c], l.times + [t]) else l
  {
    PrefixSnoc(rawNames, rawTimes, k);
    FirstOccurrencesSnoc(Cleaned(rawNames[..k]), TimeTexts(rawTimes[..k]), CleanNickname(rawNames[k]), TimeText(rawTimes[k]));
  }

  /** The loop of `extract_nicknames_and_times_from_file`: clean each name, keep
      it when it is non-empty and not yet seen, and keep its time beside it. */
  method CollectNicknames(rawNames: seq<Cell>, rawTimes: seq<Option<Cell>>)
    returns (nicknames: seq<string>, times: seq<string>)
    requires |rawTimes| == |rawNames|
    ensures Listing(nicknames, times) == FirstOccurrences(Cleaned(rawNames), TimeTexts(rawTimes))
  {
    nicknames, times := [], [];
    var seen: set<string> := {};
    for k := 0 to |rawNames|
      invariant Listing(nicknames, times) == FirstOccurrences(Cleaned(rawNames[..k]), TimeTexts(rawTimes[..k]))
      invariant forall x :: x in seen <==> x in nicknames
    {
      var cleanName := CleanNickname(rawNames[k]);
      CollectStep(rawNames, rawTimes, k, Listing(nicknames, times));
      if cleanName != "" && cleanName !in seen && |cleanName| > 0 {
        nicknames := nicknames + [cleanName];
        times := times + [TimeText(rawTimes[k])];
        seen := seen + {cleanName};
      }
    }
    assert rawNames[..|rawNames|] == rawNames;
    assert rawTimes[..|rawTimes|] == rawTimes;
  }

  /** The three-part reply `(nicknames, times, error)`; `error` is "" on success. */
  datatype Extraction = Extraction(nicknames: seq<string>, times: seq<string>, error: string)

  /** What extraction yields for a file, every failure as `([], [], message)`. */
  function ExtractionOf(fileName: string, read: Read): (x: Extraction)
    requires read.WellFormed()
    ensures x.error == "" <==> Locate(fileName, read).Success?
    ensures Locate(fileName, read).Failure? ==>
              x == Extraction([], [], Message(Locate(fileName, read).error))
  {
    match Locate(fileName, read)
    case Failure(f) => Extraction([], [], Message(f))
    case Success(cols) =>
      var sheet := read.sheet;
      var listing := FirstOccurrences(Cleaned(sheet.columns[cols.nickname]), TimeTexts(RawTimes(sheet, cols.time)));
      Extraction(listing.nicknames, listing.times, "")
  }

  /** The nicknames of an extraction are non-empty, cleaned and pairwise
      distinct, and each has its time beside it. */
  lemma ExtractionIsClean(fileName: string, read: Read)
    requires read.WellFormed()
    ensures var x := ExtractionOf(fileName, read);
      && |x.times| == |x.nicknames| && Distinct(x.nicknames)
      && forall i :: 0 <= i < |x.nicknames| ==> x.nicknames[i] != "" && IsClean(x.nicknames[i])
  {
    var x := ExtractionOf(fileName, read);
    if Locate(fileName, read).Success? {
      var cols := Locate(fileName, read).value;
      var names := Cleaned(read.sheet.columns[cols.nickname]);
      forall i | 0 <= i < |x.nicknames| ensures IsClean(x.nicknames[i]) {
        assert x.nicknames[i] in names;
      }
    }
  }

  /** `extract_nicknames_and_times_from_file`, replying with three parts on
      every path. */
  method ExtractNicknamesAndTimes(fileName: string, read: Read) returns (x: Extraction)
    requires read.WellFormed()
    ensures x == ExtractionOf(fileName, read)
  {
    var located := Locate(fileName, read);
    if located.Failure? {
      return Extraction([], [], Message(located.error));
    }
    var sheet := read.sheet;
    var nicknames, times := CollectNicknames(sheet.columns[located.value.nickname],
                                             RawTimes(sheet, located.value.time));
    x := Extraction(nicknames, times, "");
  }

  // ---------------------------------------------------------------------
  // The reply as the source writes it

  /** The tuple the source returns: two of its failure branches return
      `([], message)`, two parts instead of three. */
  datatype Reply = Pair(names: seq<string>, error: string) | Triple(names: seq<string>, times: seq<string>, error: string)

  function ReplyAsWritten(fileName: string, read: Read): (r: Reply)
    requires read.WellFormed()
    ensures r.Pair? <==> Locate(fileName, read).Failure?
                         && (Locate(fileName, read).error.UnsupportedFormat? || Locate(fileName, read).error.EmptyFile?)
  {
    match Locate(fileName, read)
    case Failure(UnsupportedFormat(name)) => Pair([], Message(UnsupportedFormat(name)))
    case Failure(EmptyFile(name)) => Pair([], Message(EmptyFile(name)))
    case _ =>
      var x := ExtractionOf(fileName, read);
      Triple(x.nicknames, x.times, x.error)
  }

  /** `nicknames, times, error_msg = reply`; unpacking a pair raises. */
  function Unpack(r: Reply): Option<Extraction> {
    match r
    case Pair(_, _) => None
    case Triple(n, t, e) => Some(Extraction(n, t, e))
  }

  /** The correction changes only the replies that could not be unpacked. */
  lemma CorrectionKeepsTriples(fileName: string, read: Read)
    requires read.WellFormed()
    ensures Unpack(ReplyAsWritten(fileName, read)).Some? ==>
              Unpack(ReplyAsWritten(fileName, read)).value == ExtractionOf(fileName, read)
    ensures Unpack(ReplyAsWritten(fileName, read)).None? ==>
              ExtractionOf(fileName, read).nicknames == [] && ExtractionOf(fileName, read).error != ""
  {
  }

  /** `validate_file_format`: the lower-cased name ends in ".xlsx" or ".xls".
      Every name the reader accepts passes. */
  function ValidateFileFormat(fileName: string): (ok: bool)
    ensures ReaderSupports(fileName) ==> ok
  {
    LowerKeepsSuffix(fileName, ".xlsx");
    LowerKeepsSuffix(fileName, ".xls");
    var lower := LowerAscii(fileName);
    EndsWith(lower, ".xlsx") || EndsWith(lower, ".xls")
  }

  /** An upper-case extension passes validation, but the reader's own,
      case-sensitive test refuses the file and answers with a two-part reply,
      which the caller's three-way unpacking cannot take. */
  lemma UpperCaseExtensionBreaksUnpack(read: Read)
    requires read.WellFormed()
    ensures ValidateFileFormat("A.XLSX")
    ensures !ReaderSupports("A.XLSX")
    ensures Unpack(ReplyAsWritten("A.XLSX", read)).None?
  {
    UpperCaseExtension();
    assert ReplyAsWritten("A.XLSX", read) == Pair([], Message(UnsupportedFormat("A.XLSX")));
  }

  lemma UpperCaseExtension()
    ensures ValidateFileFormat("A.XLSX") && !ReaderSupports("A.XLSX")
  {
    var name := "A.XLSX";
    var lower := LowerAscii(name);
    assert lower[1..] == ".xlsx" by {
      assert lower[1] == '.' && lower[2] == 'x' && lower[3] == 'l' && lower[4] == 's' && lower[5] == 'x';
    }
    assert !EndsWith(name, ".xlsx") by { assert name[1..][1] != ".xlsx"[1]; }
    assert !EndsWith(name, ".xls") by { assert name[2..][0] != ".xls"[0]; }
  }

  /** A sheet with no data rows gets a two-part reply as well. */
  lemma EmptySheetBreaksUnpack(fileName: string, sheet: Sheet)
    requires ReaderSupports(fileName) && sheet.WellFormed() && sheet.IsEmpty()
    ensures Unpack(ReplyAsWritten(fileName, Parsed(sheet))).None?
  {
  }

  // ---------------------------------------------------------------------
  // Batch extraction

  datatype Upload = Upload(name: string, read: Read)

  predicate AllWellFormed(uploads: seq<Upload>) {
    forall i :: 0 <= i < |uploads| ==> uploads[i].read.WellFormed()
  }

  /** What `batch_process_files` returns. */
  datatype BatchResult = BatchResult(successes: seq<(string, seq<string>)>, errors: seq<string>)

  /** Each upload's name with what extraction yields for it, in upload
      order. */
  function Results(uploads: seq<Upload>): (r: seq<(string, Extraction)>)
    requires AllWellFormed(uploads)
    ensures |r| == |uploads|
    ensures forall i :: 0 <= i < |r| ==> r[i] == (uploads[i].name, ExtractionOf(uploads[i].name, uploads[i].read))
  {
    seq(|uploads|, i requires 0 <= i < |uploads| && uploads[i].read.WellFormed() =>
                     (uploads[i].name, ExtractionOf(uploads[i].name, uploads[i].read)))
  }

  /** The files that extract cleanly, with their nicknames, and
      "<file name>: <message>" for every other file, both in upload order. */
  function BatchOf(results: seq<(string, Extraction)>): (r: BatchResult)
    ensures |r.successes| + |r.errors| == |results|
  {
    if results == [] then BatchResult([], [])
    else
      var n := |results| - 1;
      Route(BatchOf(results[..n]), results[n].0, results[n].1)
  }

  /** What `batch_process_files` returns for a list of uploads, built on the
      corrected extraction; the code as it stands raises instead on a file the
      reader refuses or an empty sheet (BatchAsWritten). */
  function Batch(uploads: seq<Upload>): (r: BatchResult)
    requires AllWellFormed(uploads)
    ensures |r.successes| + |r.errors| == |uploads|
  {
    BatchOf(Results(uploads))
  }

  /** One file's extraction lands in exactly one of the two lists. */
  function Route(prev: BatchResult, name: string, x: Extraction): (r: BatchResult)
    ensures x.error == "" ==> r == BatchResult(prev.successes + [(name, x.nicknames)], prev.errors)
    ensures x.error != "" ==> r == BatchResult(prev.successes, prev.errors + [name + ": " + x.error])
  {
    if x.error != "" then BatchResult(prev.successes, prev.errors + [name + ": " + x.error])
    else BatchResult(prev.successes + [(name, x.nicknames)], prev.errors)
  }

  lemma BatchStep(uploads: seq<Upload>, k: nat)
    requires AllWellFormed(uploads) && k < |uploads|
    ensures Batch(uploads[..k + 1]) == Route(Batch(uploads[..k]), uploads[k].name, ExtractionOf(uploads[k].name, uploads[k].read))
  {
    assert Results(uploads[..k + 1])[..k] == Results(uploads[..k]);
  }

  /** A file that extracts as `x` cleanly, and `s` is its success entry. */
  predicate SucceedsAs(name: string, x: Extraction, s: (string, seq<string>)) {
    x.error == "" && s == (name, x.nicknames)
  }

  /** A file that extracts as `x` fails, and `e` is its error entry. */
  predicate FailsAs(name: string, x: Extraction, e: string) {
    x.error != "" && e == name + ": " + x.error
  }

  lemma {:induction false} BatchOfMembers(results: seq<(string, Extraction)>)
    ensures forall s :: s in BatchOf(results).successes <==>
              exists i :: 0 <= i < |results| && SucceedsAs(results[i].0, results[i].1, s)
    ensures forall e :: e in BatchOf(results).errors <==>
              exists i :: 0 <= i < |results| && FailsAs(results[i].0, results[i].1, e)
  {
    if results != [] {
      var n := |results| - 1;
      var init := results[..n];
      BatchOfMembers(init);
      forall s | exists i :: 0 <= i < |results| && SucceedsAs(results[i].0, results[i].1, s)
        ensures s in BatchOf(results).successes
      {
        var i :| 0 <= i < |results| && SucceedsAs(results[i].0, results[i].1, s);
        if i < n {
          assert SucceedsAs(init[i].0, init[i].1, s);
        }
      }
      forall e | exists i :: 0 <= i < |results| && FailsAs(results[i].0, results[i].1, e)
        ensures e in BatchOf(results).errors
      {
        var i :| 0 <= i < |results| && FailsAs(results[i].0, results[i].1, e);
        if i < n {
          assert FailsAs(init[i].0, init[i].1, e);
        }
      }
    }
  }

  /** The success list holds exactly the uploads that extract cleanly, each
      with its nicknames, and the error list exactly the others, each as
      "<file name>: <message>". */
  lemma BatchMembers(uploads: seq<Upload>)
    requires AllWellFormed(uploads)
    ensures forall s :: s in Batch(uploads).successes <==>
              exists i :: 0 <= i < |uploads| && SucceedsAs(uploads[i].name, ExtractionOf(uploads[i].name, uploads[i].read), s)
    ensures forall e :: e in Batch(uploads).errors <==>
              exists i :: 0 <= i < |uploads| && FailsAs(uploads[i].name, ExtractionOf(uploads[i].name, uploads[i].read), e)
  {
    BatchOfMembers(Results(uploads));
  }

  lemma {:induction false} BatchOfInOrder(results: seq<(string, Extraction)>, k: nat)
    requires k <= |results|
    ensures BatchOf(results[..k]).successes <= BatchOf(results).successes
    ensures BatchOf(results[..k]).errors <= BatchOf(results).errors
  {
    if k < |results| {
      var n := |results| - 1;
      assert results[..n][..k] == results[..k];
      BatchOfInOrder(results[..n], k);
    } else {
      assert results[..k] == results;
    }
  }

  /** Both lists only grow as uploads are handled: the result for the first
      `k` uploads is a prefix of the result for all of them, so entries keep
      upload order. */
  lemma BatchInOrder(uploads: seq<Upload>, k: nat)
    requires AllWellFormed(uploads) && k <= |uploads|
    ensures Batch(uploads[..k]).successes <= Batch(uploads).successes
    ensures Batch(uploads[..k]).errors <= Batch(uploads).errors
  {
    assert Results(uploads)[..k] == Results(uploads[..k]);
    BatchOfInOrder(Results(uploads), k);
  }

  /** `batch_process_files`, with the corrected extraction: where the code as
      it stands raises, this loop files the upload as an error. */
  method BatchProcessFiles(uploads: seq<Upload>) returns (successes: seq<(string, seq<string>)>, errors: seq<string>)
    requires AllWellFormed(uploads)
    ensures BatchResult(successes, errors) == Batch(uploads)
  {
    successes, errors := [], [];
    for k := 0 to |uploads|
      invariant BatchResult(successes, errors) == Batch(uploads[..k])
    {
      var x := ExtractNicknamesAndTimes(uploads[k].name, uploads[k].read);
      BatchStep(uploads, k);
      if x.error != "" {
        errors := errors + [uploads[k].name + ": " + x.error];
      } else {
        successes := successes + [(uploads[k].name, x.nicknames)];
      }
    }
    assert uploads[..|uploads|] == uploads;
  }

  /** Each upload's name with the reply `extract_nicknames_and_times_from_file`
      gives as the code stands, in upload order. */
  function Replies(uploads: seq<Upload>): (r: seq<(string, Reply)>)
    requires AllWellFormed(uploads)
    ensures |r| == |uploads|
    ensures forall i :: 0 <= i < |r| ==> r[i] == (uploads[i].name, ReplyAsWritten(uploads[i].name, uploads[i].read))
  {
    seq(|uploads|, i requires 0 <= i < |uploads| && uploads[i].read.WellFormed() =>
                     (uploads[i].name, ReplyAsWritten(uploads[i].name, uploads[i].read)))
  }

  /** The loop of `batch_process_files` over the replies as written: the
      first two-part reply cannot be unpacked into three values and raises
      ValueError out of the loop, which `None` stands for. */
  function BatchOfReplies(replies: seq<(string, Reply)>): (r: Option<BatchResult>)
    ensures r.Some? <==> forall i :: 0 <= i < |replies| ==> Unpack(replies[i].1).Some?
  {
    if replies == [] then Some(BatchResult([], []))
    else
      var n := |replies| - 1;
      assert forall i :: 0 <= i < n ==> replies[..n][i] == replies[i];
      match BatchOfReplies(replies[..n])
      case None => None
      case Some(prev) =>
        match Unpack(replies[n].1)
        case None => None
        case Some(x) => Some(Route(prev, replies[n].0, x))
  }

  /** Where every reply that unpacks agrees with the corrected extraction, the
      loop as written, if it finishes, returns the corrected batch. */
  lemma {:induction false} BatchOfRepliesAgrees(replies: seq<(string, Reply)>, results: seq<(string, Extraction)>)
    requires |replies| == |results|
    requires forall i :: 0 <= i < |replies| ==>
               replies[i].0 == results[i].0 && (Unpack(replies[i].1).Some? ==> Unpack(replies[i].1).value == results[i].1)
    ensures BatchOfReplies(replies).Some? ==> BatchOfReplies(replies).value == BatchOf(results)
  {
    if replies != [] {
      var n := |replies| - 1;
      assert forall i :: 0 <= i < n ==> replies[..n][i] == replies[i] && results[..n][i] == results[i];
      BatchOfRepliesAgrees(replies[..n], results[..n]);
    }
  }

  /** Upload by upload, a reply as written that unpacks is the corrected
      extraction. */
  lemma RepliesAgree(uploads: seq<Upload>)
    requires AllWellFormed(uploads)
    ensures forall i :: 0 <= i < |uploads| ==>
              Unpack(Replies(uploads)[i].1).Some? ==> Unpack(Replies(uploads)[i].1).value == Results(uploads)[i].1
  {
    forall i | 0 <= i < |uploads|
      ensures Unpack(Replies(uploads)[i].1).Some? ==> Unpack(Replies(uploads)[i].1).value == Results(uploads)[i].1
    {
      CorrectionKeepsTriples(uploads[i].name, uploads[i].read);
    }
  }

  /** `batch_process_files` as the code stands: it raises exactly when some
      upload's reply is a two-part one, and otherwise returns the batch the
      corrected extraction gives. */
  lemma BatchAsWritten(uploads: seq<Upload>)
    requires AllWellFormed(uploads)
    ensures BatchOfReplies(Replies(uploads)).Some? <==>
              forall i :: 0 <= i < |uploads| ==> Unpack(ReplyAsWritten(uploads[i].name, uploads[i].read)).Some?
    ensures BatchOfReplies(Replies(uploads)).Some? ==> BatchOfReplies(Replies(uploads)).value == Batch(uploads)
  {
    RepliesAgree(uploads);
    BatchOfRepliesAgrees(Replies(uploads), Results(uploads));
  }

  /** An upload whose name the reader refuses: the corrected batch files it
      as an error, but the code as it stands raises, since nothing in
      `batch_process_files` checks the extension first. */
  lemma UnsupportedBreaksBatch(u: Upload)
    requires u.read.WellFormed() && !ReaderSupports(u.name)
    ensures |Batch([u]).errors| == 1
    ensures BatchOfReplies(Replies([u])).None?
  {
    assert Locate(u.name, u.read) == Failure(UnsupportedFormat(u.name));
    CorrectionKeepsTriples(u.name, u.read);
    var results := Results([u]);
    assert results[..0] == [];
    assert Replies([u])[..0] == [];
  }

  /** The reader refuses `a.csv`. */
  lemma CsvRefused(name: string)
    requires name == "a.csv"
    ensures !ReaderSupports(name)
  {
    assert !EndsWith(name, ".xlsx") by { assert name[..] != ".xlsx"; }
    assert !EndsWith(name, ".xls") by { assert name[1..][1] != ".xls"[1]; }
  }

  /** For instance `a.csv`. */
  lemma CsvBreaksBatch(name: string, read: Read)
    requires name == "a.csv" && read.WellFormed()
    ensures !ReaderSupports(name)
    ensures |Batch([Upload(name, read)]).errors| == 1
    ensures BatchOfReplies(Replies([Upload(name, read)])).None?
  {
    CsvRefused(name);
    UnsupportedBreaksBatch(Upload(name, read));
  }
}
