/**
 * The event extractor of `utils/jsonReader.py`: one archived GitHub event
 * record becomes one CSV line, dates are read from `YYYYMMDD` strings, and the
 * hourly archive files between two dates are enumerated by name.
 *
 * Reading the gzip archives and writing the CSV file are left out; the
 * enumeration gives the names in the order the files would be read.
 */
module JsonReader {
  import opened Wrappers
  import opened Decimal
  import opened TimeFormat

  /** Where the hourly archives live. */
  const InputDir: string := "../../leidos_data/Events"
  /** The first and last day extracted. */
  const DateStart: string := "20170817"
  const DateEnd: string := "20170831"

  /**
   * The fields of an archived record that the extractor reads: the `actor`
   * and `repo` objects (whose hashed ids may be missing), `created_at` and
   * `type`.
   */
  datatype Record = Record(actor: map<string, string>, repo: map<string, string>, createdAt: string, eventType: string)

  /** `s.replace(c, sub)` for single characters: every occurrence is replaced. */
  function Replace(s: string, c: char, sub: char): (r: string)
    ensures |r| == |s|
    ensures forall i :: 0 <= i < |s| ==> r[i] == (if s[i] == c then sub else s[i])
  {
    if s == [] then [] else [if s[0] == c then sub else s[0]] + Replace(s[1..], c, sub)
  }

  /** The time column: `created_at` with every `Z`, then every `T`, replaced by a space. */
  function EventTime(createdAt: string): (r: string)
    ensures |r| == |createdAt|
  {
    Replace(Replace(createdAt, 'Z', ' '), 'T', ' ')
  }

  /** The user column: the actor's hashed login, or `"None"`. */
  function UserId(rec: Record): string
  {
    if "login_h" in rec.actor then rec.actor["login_h"] else "None"
  }

  /** The object column: the repo's hashed name, or `"None"`. */
  function ObjectId(rec: Record): string
  {
    if "name_h" in rec.repo then rec.repo["name_h"] else "None"
  }

  /** `extractEvent`: time, type, user and object, comma-separated, ending the line. */
  function ExtractEvent(rec: Record): (r: string)
    ensures |r| > |rec.createdAt| && r[|r| - 1] == '\n'
    ensures r[..|rec.createdAt|] == EventTime(rec.createdAt)
  {
    EventTime(rec.createdAt) + "," + rec.eventType + "," + UserId(rec) + "," + ObjectId(rec) + "\n"
  }

  /**
   * The time column keeps the length and every other character of
   * `created_at`, puts a space where a `T` or `Z` was, and has neither left.
   */
  lemma EventTimeShape(createdAt: string)
    ensures |EventTime(createdAt)| == |createdAt|
    ensures forall i :: 0 <= i < |createdAt| ==>
      EventTime(createdAt)[i] == if createdAt[i] == 'T' || createdAt[i] == 'Z' then ' ' else createdAt[i]
    ensures 'T' !in EventTime(createdAt) && 'Z' !in EventTime(createdAt)
  {
    var t := EventTime(createdAt);
    forall x | x in t ensures x != 'T' && x != 'Z' {
      var i :| 0 <= i < |t| && t[i] == x;
    }
  }

  /** A CSV line split at `sep`: the text between separators, in order. */
  function Split(s: string, sep: char): (r: seq<string>)
    ensures |r| >= 1
    ensures forall k :: 0 <= k < |r| ==> sep !in r[k]
  {
    if s == [] then [""]
    else
      var rest := Split(s[1..], sep);
      if s[0] == sep then [""] + rest else [[s[0]] + rest[0]] + rest[1..]
  }

  /** The fields written one after another with `sep` between them. */
  function Join(fields: seq<string>, sep: char): string
    requires |fields| >= 1
  {
    if |fields| == 1 then fields[0] else fields[0] + [sep] + Join(fields[1..], sep)
  }

  lemma {:induction false} SplitNoSeparator(s: string, sep: char)
    requires sep !in s
    ensures Split(s, sep) == [s]
  {
    if s != [] {
      SplitNoSeparator(s[1..], sep);
      assert [s[0]] + s[1..] == s;
    }
  }

  lemma {:induction false} SplitFirstField(a: string, sep: char, b: string)
    requires sep !in a
    ensures Split(a + [sep] + b, sep) == [a] + Split(b, sep)
  {
    var s := a + [sep] + b;
    if a == [] {
      assert s == [sep] + b;
      assert s[1..] == b;
    } else {
      assert s[0] == a[0] && s[1..] == a[1..] + [sep] + b;
      SplitFirstField(a[1..], sep, b);
      assert [a[0]] + a[1..] == a;
    }
  }

  /** Splitting a joined line gives back its fields when none holds the separator. */
  lemma {:induction false} SplitJoin(fields: seq<string>, sep: char)
    requires |fields| >= 1 && forall k :: 0 <= k < |fields| ==> sep !in fields[k]
    ensures Split(Join(fields, sep), sep) == fields
  {
    if |fields| == 1 {
      SplitNoSeparator(fields[0], sep);
    } else {
      SplitJoin(fields[1..], sep);
      SplitFirstField(fields[0], sep, Join(fields[1..], sep));
      assert [fields[0]] + fields[1..] == fields;
    }
  }

  /**
   * The line is time, type, user and object in that order, each missing id
   * written as `"None"`, ended by one newline; when no field holds a comma or
   * a newline, splitting the line at commas reads the four fields back.
   */
  lemma ExtractEventFields(rec: Record)
    requires ',' !in rec.createdAt && ',' !in rec.eventType && ',' !in UserId(rec) && ',' !in ObjectId(rec)
    ensures var line := ExtractEvent(rec);
      && |line| >= 1 && line[|line| - 1] == '\n'
      && Split(line[..|line| - 1], ',') ==
           [ EventTime(rec.createdAt), rec.eventType,
             if "login_h" in rec.actor then rec.actor["login_h"] else "None",
             if "name_h" in rec.repo then rec.repo["name_h"] else "None" ]
  {
    var fields := [EventTime(rec.createdAt), rec.eventType, UserId(rec), ObjectId(rec)];
    var line := ExtractEvent(rec);
    assert ',' !in fields[0] by {
      EventTimeShape(rec.createdAt);
      forall i | 0 <= i < |fields[0]| ensures fields[0][i] != ',' {
        assert rec.createdAt[i] != ',';
      }
    }
    assert Join(fields, ',') == fields[0] + "," + fields[1] + "," + fields[2] + "," + fields[3] by {
      assert fields[1..][1..] == fields[2..] && fields[2..][1..] == fields[3..];
      assert Join(fields[3..], ',') == fields[3];
      assert Join(fields[2..], ',') == fields[2] + "," + fields[3];
      assert Join(fields[1..], ',') == fields[1] + "," + (fields[2] + "," + fields[3]);
    }
    assert line[..|line| - 1] == Join(fields, ',');
    SplitJoin(fields, ',');
  }

  /** The largest number a run of `n` digits can spell, plus one. */
  function Pow10(n: nat): (p: nat)
    ensures p >= 1
  {
    if n == 0 then 1 else 10 * Pow10(n - 1)
  }

  lemma {:induction false} DecimalValueBound(s: string)
    requires AllDigits(s)
    ensures DecimalValue(s) < Pow10(|s|)
  {
    if s != [] {
      DecimalValueBound(s[..|s| - 1]);
    }
  }

  /**
   * `extract_date`: the year, month and day spelled by the first eight
   * characters when they are all digits (anything after is ignored, as
   * `re.match` anchors only at the start), else `(0, 0, 0)`. Year, month and
   * day never exceed four, two and two digits, and are never None.
   */
  function ExtractDate(s: string): (r: (nat, nat, nat))
    ensures r.0 < 10000 && r.1 < 100 && r.2 < 100
  {
    if |s| >= 8 && AllDigits(s[..8]) then
      DecimalValueBound(s[..4]);
      DecimalValueBound(s[4..6]);
      DecimalValueBound(s[6..8]);
      (DecimalValue(s[..4]), DecimalValue(s[4..6]), DecimalValue(s[6..8]))
    else (0, 0, 0)
  }

  /** The `YYYYMMDD` spelling of a date. */
  function DateString(y: nat, m: nat, d: nat): string
  {
    ZeroPad(DecimalString(y), 4) + ZeroPad(DecimalString(m), 2) + ZeroPad(DecimalString(d), 2)
  }

  lemma PaddedLength(n: nat, width: nat)
    requires 1 <= width && n < Pow10(width)
    ensures |ZeroPad(DecimalString(n), width)| == width
  {
    DecimalLength(n, width);
  }

  lemma {:induction false} DecimalLength(n: nat, width: nat)
    requires 1 <= width && n < Pow10(width)
    ensures |DecimalString(n)| <= width
  {
    if n >= 10 {
      assert width >= 2;
      DecimalLength(n / 10, width - 1);
    }
  }

  /** Reading a `YYYYMMDD` spelling, followed by anything, gives the date back. */
  lemma ExtractDateRoundTrip(y: nat, m: nat, d: nat, rest: string)
    requires y < 10000 && m < 100 && d < 100
    ensures ExtractDate(DateString(y, m, d) + rest) == (y, m, d)
  {
    var ys, ms, ds := ZeroPad(DecimalString(y), 4), ZeroPad(DecimalString(m), 2), ZeroPad(DecimalString(d), 2);
    assert Pow10(4) == 10000 && Pow10(2) == 100;
    PaddedLength(y, 4);
    PaddedLength(m, 2);
    PaddedLength(d, 2);
    PaddedValue(y, 4);
    PaddedValue(m, 2);
    PaddedValue(d, 2);
    var s := ys + ms + ds + rest;
    assert s[..4] == ys && s[4..6] == ms && s[6..8] == ds;
    assert s[..8] == ys + ms + ds;
  }

  /** A string that does not start with eight digits reads as `(0, 0, 0)`. */
  lemma ExtractDateFallback(s: string)
    requires |s| < 8 || exists i :: 0 <= i < 8 && !IsDigit(s[i])
    ensures ExtractDate(s) == (0, 0, 0)
  {
    if |s| >= 8 {
      var i :| 0 <= i < 8 && !IsDigit(s[i]);
      assert !IsDigit(s[..8][i]);
    }
  }

  /** The configured range is 17 to 31 August 2017. */
  lemma ConfiguredDates()
    ensures ExtractDate(DateStart) == (2017, 8, 17)
    ensures ExtractDate(DateEnd) == (2017, 8, 31)
  {
    assert DateString(2017, 8, 17) == DateStart;
    assert DateString(2017, 8, 31) == DateEnd;
    ExtractDateRoundTrip(2017, 8, 17, "");
    ExtractDateRoundTrip(2017, 8, 31, "");
    assert DateStart + "" == DateStart && DateEnd + "" == DateEnd;
  }

  /** The hourly archive of `year`-`month`-`day`, hour `hour`; month and day are zero-padded, the hour is not. */
  function FileName(year: nat, month: nat, day: nat, hour: nat): (r: string)
    ensures |r| > |ArchivePrefix| && r[..|ArchivePrefix|] == ArchivePrefix
  {
    Name(ArchivePrefix, DecimalString(year), ZeroPad(DecimalString(month), 2), ZeroPad(DecimalString(day), 2), DecimalString(hour))
  }

  const ArchivePrefix: string := InputDir + "/Anon/"
  const ArchiveSuffix: string := ".json.gz"

  /** `<prefix>YYYYMM/YYYYMMDD/an_YYYY-MM-DD-H.json.gz` from the spelled fields. */
  function Name(prefix: string, yyyy: string, mm: string, dd: string, h: string): (r: string)
    ensures |r| > |prefix| && r[..|prefix|] == prefix
  {
    prefix + (yyyy + mm) + "/" + (yyyy + mm + dd) + "/" + ("an_" + Stamp(yyyy, mm, dd, h))
  }

  /** The archive's own file name after `an_`: `YYYY-MM-DD-H.json.gz`. */
  function Stamp(yyyy: string, mm: string, dd: string, h: string): string
  {
    yyyy + "-" + (mm + "-" + dd + "-" + (h + ArchiveSuffix))
  }

  /**
   * Reads year, month, day and hour back from an archive name, taking them
   * from its last path component `an_<year>-<mm>-<dd>-<hour>.json.gz`.
   */
  function ReadFileName(name: string): Option<(nat, nat, nat, nat)>
  {
    ReadUnder(ArchivePrefix, name)
  }

  /** `ReadFileName` for archives under the directory `prefix`. */
  function ReadUnder(prefix: string, name: string): Option<(nat, nat, nat, nat)>
  {
    if |name| < |prefix| || name[..|prefix|] != prefix then None
    else match AfterSlash(name[|prefix|..])
      case None => None
      case Some(r2) =>
        match AfterSlash(r2)
        case None => None
        case Some(leaf) => ReadLeaf(leaf)
  }

  /** What follows the first `/` of `s`, if it has one. */
  function AfterSlash(s: string): Option<string>
  {
    var i := IndexOf(s, '/');
    if i == |s| then None else Some(s[i + 1..])
  }

  /** Reads `an_<year>-<mm>-<dd>-<hour>.json.gz`. */
  function ReadLeaf(leaf: string): Option<(nat, nat, nat, nat)>
  {
    if |leaf| < 3 || leaf[..3] != "an_" then None else ReadYear(leaf[3..])
  }

  /** Reads `<year>-<mm>-<dd>-<hour>.json.gz`. */
  function ReadYear(s: string): Option<(nat, nat, nat, nat)>
  {
    var k := IndexOf(s, '-');
    if k == |s| then None else ReadStamp(s[..k], s[k + 1..])
  }

  /** Reads `<mm>-<dd>-<hour>.json.gz` after the year `ys`. */
  function ReadStamp(ys: string, t: string): Option<(nat, nat, nat, nat)>
  {
    if |t| < 6 || t[2] != '-' || t[5] != '-' then None
    else
      var u := t[6..];
      if |u| < |ArchiveSuffix| || u[|u| - |ArchiveSuffix|..] != ArchiveSuffix then None
      else ReadFields(ys, t[..2], t[3..5], u[..|u| - |ArchiveSuffix|])
  }

  /** The four fields as numbers, when each is a non-empty run of digits. */
  function ReadFields(ys: string, ms: string, ds: string, hs: string): Option<(nat, nat, nat, nat)>
  {
    if ys == [] || hs == [] || !AllDigits(ys) || !AllDigits(ms) || !AllDigits(ds) || !AllDigits(hs) then None
    else Some((DecimalValue(ys), DecimalValue(ms), DecimalValue(ds), DecimalValue(hs)))
  }

  lemma AfterDirectory(dir: string, rest: string)
    requires AllDigits(dir)
    ensures AfterSlash(dir + "/" + rest) == Some(rest)
  {
    IndexAfterDigits(dir, '/', rest);
    assert (dir + "/" + rest)[|dir| + 1..] == rest;
  }

  lemma ReadLeafPrefix(s: string)
    ensures ReadLeaf("an_" + s) == ReadYear(s)
  {
    assert ("an_" + s)[..3] == "an_" && ("an_" + s)[3..] == s;
  }

  lemma ReadYearOf(ys: string, t: string)
    requires AllDigits(ys)
    ensures ReadYear(ys + "-" + t) == ReadStamp(ys, t)
  {
    IndexAfterDigits(ys, '-', t);
    assert (ys + "-" + t)[..|ys|] == ys && (ys + "-" + t)[|ys| + 1..] == t;
  }

  lemma ReadStampOf(ys: string, mm: string, dd: string, h: string)
    requires |mm| == 2 && |dd| == 2
    ensures ReadStamp(ys, mm + "-" + dd + "-" + (h + ArchiveSuffix)) == ReadFields(ys, mm, dd, h)
  {
    var u := h + ArchiveSuffix;
    var t := mm + "-" + dd + "-" + u;
    assert t[..2] == mm && t[3..5] == dd && t[2] == '-' && t[5] == '-' && t[6..] == u;
    assert u[|u| - |ArchiveSuffix|..] == ArchiveSuffix && u[..|u| - |ArchiveSuffix|] == h;
  }

  /** The reader skips the two directories, each named by digits, and reads the leaf. */
  lemma ReadUnderSkipsDirectories(prefix: string, dir1: string, dir2: string, leaf: string)
    requires AllDigits(dir1) && AllDigits(dir2)
    ensures ReadUnder(prefix, prefix + dir1 + "/" + dir2 + "/" + leaf) == ReadLeaf(leaf)
  {
    var r2 := dir2 + "/" + leaf;
    var name := prefix + dir1 + "/" + dir2 + "/" + leaf;
    assert name[..|prefix|] == prefix && name[|prefix|..] == dir1 + "/" + r2 by {
      assert name == prefix + (dir1 + "/" + r2);
    }
    AfterDirectory(dir1, r2);
    AfterDirectory(dir2, leaf);
  }

  /** The fields spelled in an archive name are read back as numbers. */
  lemma ReadNameOf(prefix: string, yyyy: string, mm: string, dd: string, h: string)
    requires AllDigits(yyyy) && AllDigits(mm) && AllDigits(dd) && AllDigits(h)
    requires |yyyy| >= 1 && |mm| == 2 && |dd| == 2 && |h| >= 1
    ensures ReadUnder(prefix, Name(prefix, yyyy, mm, dd, h))
      == Some((DecimalValue(yyyy), DecimalValue(mm), DecimalValue(dd), DecimalValue(h)))
  {
    assert AllDigits(yyyy + mm) && AllDigits(yyyy + mm + dd);
    ReadUnderSkipsDirectories(prefix, yyyy + mm, yyyy + mm + dd, "an_" + Stamp(yyyy, mm, dd, h));
    ReadLeafPrefix(Stamp(yyyy, mm, dd, h));
    ReadYearOf(yyyy, mm + "-" + dd + "-" + (h + ArchiveSuffix));
    ReadStampOf(yyyy, mm, dd, h);
  }

  lemma TwoDigits(n: nat)
    requires n < 100
    ensures |ZeroPad(DecimalString(n), 2)| == 2 && AllDigits(ZeroPad(DecimalString(n), 2))
    ensures DecimalValue(ZeroPad(DecimalString(n), 2)) == n
  {
    PaddedLength(n, 2);
    PaddedValue(n, 2);
  }

  /** Reading an archive name gives back the hour it names. */
  lemma FileNameRoundTrip(year: nat, month: nat, day: nat, hour: nat)
    requires month < 100 && day < 100
    ensures ReadFileName(FileName(year, month, day, hour)) == Some((year, month, day, hour))
  {
    TwoDigits(month);
    TwoDigits(day);
    DecimalRoundTrip(year);
    DecimalRoundTrip(hour);
    ReadNameOf(ArchivePrefix, DecimalString(year), ZeroPad(DecimalString(month), 2), ZeroPad(DecimalString(day), 2), DecimalString(hour));
  }

  /** Distinct hours with two-digit months and days have distinct archive names. */
  lemma FileNameInjective(y: nat, m: nat, d: nat, h: nat, y': nat, m': nat, d': nat, h': nat)
    requires m < 100 && d < 100 && m' < 100 && d' < 100
    requires FileName(y, m, d, h) == FileName(y', m', d', h')
    ensures (y, m, d, h) == (y', m', d', h')
  {
    FileNameRoundTrip(y, m, d, h);
    FileNameRoundTrip(y', m', d', h');
  }

  /** The length of `range(lo, hi + 1)`. */
  function Span(lo: nat, hi: nat): nat
  {
    if lo <= hi then hi - lo + 1 else 0
  }

  /** The blocks one after another. */
  function Flatten(blocks: seq<seq<string>>): seq<string>
  {
    if blocks == [] then [] else Flatten(blocks[..|blocks| - 1]) + blocks[|blocks| - 1]
  }

  /** How an archive is named from its year, month, day and hour. */
  type Namer = (nat, nat, nat, nat) -> string

  /** The 24 archives of one day, by hour. */
  function DayNames(name: Namer, year: nat, month: nat, day: nat): seq<string>
  {
    seq(24, hour requires 0 <= hour => name(year, month, day, hour))
  }

  /** The days `d1..d2` of one month, each as its block of archives. */
  function DayBlocks(name: Namer, year: nat, month: nat, d1: nat, d2: nat): seq<seq<string>>
  {
    seq(Span(d1, d2), k requires 0 <= k => DayNames(name, year, month, d1 + k))
  }

  /** The months `m1..m2` of one year, each as its block of archives. */
  function MonthBlocks(name: Namer, year: nat, m1: nat, m2: nat, d1: nat, d2: nat): seq<seq<string>>
  {
    seq(Span(m1, m2), j requires 0 <= j => Flatten(DayBlocks(name, year, m1 + j, d1, d2)))
  }

  /** The years `y1..y2`, each as its block of archives. */
  function YearBlocks(name: Namer, y1: nat, m1: nat, d1: nat, y2: nat, m2: nat, d2: nat): seq<seq<string>>
  {
    seq(Span(y1, y2), i requires 0 <= i => Flatten(MonthBlocks(name, y1 + i, m1, m2, d1, d2)))
  }

  /**
   * The archive names `extract_events` reads, in order: years `y1..y2`,
   * within each the months `m1..m2`, within each the days `d1..d2`, within
   * each the hours 0 to 23. The three ranges are independent, so the days
   * run from `d1` to `d2` in every month. `name` is `FileName`.
   */
  function ArchiveNamesOf(name: Namer, y1: nat, m1: nat, d1: nat, y2: nat, m2: nat, d2: nat): seq<string>
  {
    Flatten(YearBlocks(name, y1, m1, d1, y2, m2, d2))
  }

  /** The four nested loops of `extract_events`, collecting the names instead of reading the files. */
  method ArchiveNames(y1: nat, m1: nat, d1: nat, y2: nat, m2: nat, d2: nat) returns (names: seq<string>)
    ensures names == ArchiveNamesOf(FileName, y1, m1, d1, y2, m2, d2)
  {
    ghost var years := YearBlocks(FileName, y1, m1, d1, y2, m2, d2);
    names := [];
    for i := 0 to Span(y1, y2)
      invariant names == Flatten(years[..i])
    {
      names := AppendYear(names, y1 + i, m1, m2, d1, d2);
      FlattenSnoc(years, i);
    }
    assert years[..|years|] == years;
  }

  /** The month loop for one year. */
  method AppendYear(before: seq<string>, year: nat, m1: nat, m2: nat, d1: nat, d2: nat) returns (names: seq<string>)
    ensures names == before + Flatten(MonthBlocks(FileName, year, m1, m2, d1, d2))
  {
    ghost var months := MonthBlocks(FileName, year, m1, m2, d1, d2);
    names := before;
    for j := 0 to Span(m1, m2)
      invariant names == before + Flatten(months[..j])
    {
      names := AppendMonth(names, year, m1 + j, d1, d2);
      FlattenSnoc(months, j);
    }
    assert months[..|months|] == months;
  }

  /** The day loop for one month. */
  method AppendMonth(before: seq<string>, year: nat, month: nat, d1: nat, d2: nat) returns (names: seq<string>)
    ensures names == before + Flatten(DayBlocks(FileName, year, month, d1, d2))
  {
    ghost var days := DayBlocks(FileName, year, month, d1, d2);
    names := before;
    for k := 0 to Span(d1, d2)
      invariant names == before + Flatten(days[..k])
    {
      names := AppendDay(names, year, month, d1 + k);
      FlattenSnoc(days, k);
    }
    assert days[..|days|] == days;
  }

  /** The hour loop for one day. */
  method AppendDay(before: seq<string>, year: nat, month: nat, day: nat) returns (names: seq<string>)
    ensures names == before + DayNames(FileName, year, month, day)
  {
    ghost var hours := DayNames(FileName, year, month, day);
    names := before;
    for hour := 0 to 24
      invariant names == before + hours[..hour]
    {
      names := names + [FileName(year, month, day, hour)];
      assert hours[..hour + 1] == hours[..hour] + [hours[hour]];
    }
    assert hours[..24] == hours;
  }

  lemma FlattenSnoc(blocks: seq<seq<string>>, k: nat)
    requires k < |blocks|
    ensures Flatten(blocks[..k + 1]) == Flatten(blocks[..k]) + blocks[k]
  {
    assert blocks[..k + 1][..k] == blocks[..k];
  }

  lemma MulBound(i: nat, n: nat, b: nat, j: nat)
    requires i < n && j < b
    ensures i * b + j < n * b
  {
    assert n * b == (i + 1) * b + (n - i - 1) * b;
  }

  /** In blocks of equal size `b`, entry `j` of block `i` sits at `i * b + j`. */
  lemma {:induction false} FlattenUniform(blocks: seq<seq<string>>, b: nat)
    requires forall i :: 0 <= i < |blocks| ==> |blocks[i]| == b
    ensures |Flatten(blocks)| == |blocks| * b
    ensures forall i, j :: 0 <= i < |blocks| && 0 <= j < b ==>
      i * b + j < |Flatten(blocks)| && Flatten(blocks)[i * b + j] == blocks[i][j]
  {
    if blocks != [] {
      var n := |blocks|;
      var init := blocks[..n - 1];
      FlattenUniform(init, b);
      assert Flatten(blocks) == Flatten(init) + blocks[n - 1];
      assert n * b == (n - 1) * b + b;
      forall i, j | 0 <= i < n && 0 <= j < b
        ensures i * b + j < |Flatten(blocks)| && Flatten(blocks)[i * b + j] == blocks[i][j]
      {
        if i < n - 1 {
          MulBound(i, n - 1, b, j);
          assert init[i] == blocks[i];
          assert Flatten(blocks)[i * b + j] == Flatten(init)[i * b + j];
        } else {
          assert i * b + j == (n - 1) * b + j;
        }
      }
    }
  }

  lemma MonthLength(name: Namer, year: nat, month: nat, d1: nat, d2: nat)
    ensures |Flatten(DayBlocks(name, year, month, d1, d2))| == Span(d1, d2) * 24
  {
    var days := DayBlocks(name, year, month, d1, d2);
    forall k | 0 <= k < |days| ensures |days[k]| == 24 {
      assert days[k] == DayNames(name, year, month, d1 + k);
    }
    FlattenUniform(days, 24);
  }

  lemma YearLength(name: Namer, year: nat, m1: nat, m2: nat, d1: nat, d2: nat)
    ensures |Flatten(MonthBlocks(name, year, m1, m2, d1, d2))| == Span(m1, m2) * (Span(d1, d2) * 24)
  {
    var months := MonthBlocks(name, year, m1, m2, d1, d2);
    forall j | 0 <= j < |months| ensures |months[j]| == Span(d1, d2) * 24 {
      MonthLength(name, year, m1 + j, d1, d2);
    }
    FlattenUniform(months, Span(d1, d2) * 24);
  }

  /** One name per (year, month, day, hour) of the four ranges. */
  lemma ArchiveNamesCount(name: Namer, y1: nat, m1: nat, d1: nat, y2: nat, m2: nat, d2: nat)
    ensures |ArchiveNamesOf(name, y1, m1, d1, y2, m2, d2)| == Span(y1, y2) * Span(m1, m2) * Span(d1, d2) * 24
  {
    var years := YearBlocks(name, y1, m1, d1, y2, m2, d2);
    var b := Span(m1, m2) * (Span(d1, d2) * 24);
    forall i | 0 <= i < |years| ensures |years[i]| == b {
      YearLength(name, y1 + i, m1, m2, d1, d2);
    }
    FlattenUniform(years, b);
    assert Span(y1, y2) * b == Span(y1, y2) * Span(m1, m2) * Span(d1, d2) * 24;
  }

  /**
   * A range with its end month before its start month, or its end day before
   * its start day, yields no names, even when the end date is the later one.
   */
  lemma ArchiveNamesEmpty(name: Namer, y1: nat, m1: nat, d1: nat, y2: nat, m2: nat, d2: nat)
    requires y2 < y1 || m2 < m1 || d2 < d1
    ensures ArchiveNamesOf(name, y1, m1, d1, y2, m2, d2) == []
  {
    ArchiveNamesCount(name, y1, m1, d1, y2, m2, d2);
  }

  lemma MonthNamesAt(name: Namer, year: nat, month: nat, d1: nat, d2: nat, k: nat, h: nat)
    requires k < Span(d1, d2) && h < 24
    ensures k * 24 + h < |Flatten(DayBlocks(name, year, month, d1, d2))|
    ensures Flatten(DayBlocks(name, year, month, d1, d2))[k * 24 + h] == name(year, month, d1 + k, h)
  {
    var days := DayBlocks(name, year, month, d1, d2);
    forall k' | 0 <= k' < |days| ensures |days[k']| == 24 {
      assert days[k'] == DayNames(name, year, month, d1 + k');
    }
    FlattenUniform(days, 24);
    assert days[k] == DayNames(name, year, month, d1 + k);
    assert days[k][h] == name(year, month, d1 + k, h);
  }

  lemma YearNamesAt(name: Namer, year: nat, m1: nat, m2: nat, d1: nat, d2: nat, j: nat, k: nat, h: nat)
    requires j < Span(m1, m2) && k < Span(d1, d2) && h < 24
    ensures j * (Span(d1, d2) * 24) + (k * 24 + h) < |Flatten(MonthBlocks(name, year, m1, m2, d1, d2))|
    ensures Flatten(MonthBlocks(name, year, m1, m2, d1, d2))[j * (Span(d1, d2) * 24) + (k * 24 + h)]
      == name(year, m1 + j, d1 + k, h)
  {
    var months := MonthBlocks(name, year, m1, m2, d1, d2);
    var b := Span(d1, d2) * 24;
    forall j' | 0 <= j' < |months| ensures |months[j']| == b {
      MonthLength(name, year, m1 + j', d1, d2);
    }
    MonthNamesAt(name, year, m1 + j, d1, d2, k, h);
    MulBound(k, Span(d1, d2), 24, h);
    FlattenUniform(months, b);
    assert months[j][k * 24 + h] == name(year, m1 + j, d1 + k, h);
  }

  /**
   * The names are the cartesian product of the four ranges in nesting order:
   * the hour varies fastest, then the day, the month and the year.
   */
  lemma ArchiveNamesAt(name: Namer, y1: nat, m1: nat, d1: nat, y2: nat, m2: nat, d2: nat,
                       i: nat, j: nat, k: nat, h: nat)
    requires i < Span(y1, y2) && j < Span(m1, m2) && k < Span(d1, d2) && h < 24
    ensures var days := Span(d1, d2) * 24;
      i * (Span(m1, m2) * days) + (j * days + (k * 24 + h)) < |ArchiveNamesOf(name, y1, m1, d1, y2, m2, d2)|
    ensures var days := Span(d1, d2) * 24;
      ArchiveNamesOf(name, y1, m1, d1, y2, m2, d2)[i * (Span(m1, m2) * days) + (j * days + (k * 24 + h))]
        == name(y1 + i, m1 + j, d1 + k, h)
  {
    var years := YearBlocks(name, y1, m1, d1, y2, m2, d2);
    var days := Span(d1, d2) * 24;
    var b := Span(m1, m2) * days;
    forall i' | 0 <= i' < |years| ensures |years[i']| == b {
      YearLength(name, y1 + i', m1, m2, d1, d2);
    }
    YearNamesAt(name, y1 + i, m1, m2, d1, d2, j, k, h);
    MulBound(k, Span(d1, d2), 24, h);
    MulBound(j, Span(m1, m2), days, k * 24 + h);
    FlattenUniform(years, b);
    assert years[i][j * days + (k * 24 + h)] == name(y1 + i, m1 + j, d1 + k, h);
  }

  /** The archive names between the dates spelled by `start` and `end`. */
  function ExtractRangeOf(start: string, end: string): seq<string>
  {
    var (y1, m1, d1) := ExtractDate(start);
    var (y2, m2, d2) := ExtractDate(end);
    ArchiveNamesOf(FileName, y1, m1, d1, y2, m2, d2)
  }

  /**
   * `extract_events` without the file reads: the dates are read from `start`
   * and `end`, and the archives are named in the order they would be read.
   */
  method ExtractEvents(start: string, end: string) returns (names: seq<string>)
    ensures names == ExtractRangeOf(start, end)
  {
    var (y1, m1, d1) := ExtractDate(start);
    var (y2, m2, d2) := ExtractDate(end);
    names := ArchiveNames(y1, m1, d1, y2, m2, d2);
  }

  /** The configured range names the archives of 17 to 31 August 2017. */
  lemma ConfiguredRange()
    ensures ExtractRangeOf(DateStart, DateEnd) == ArchiveNamesOf(FileName, 2017, 8, 17, 2017, 8, 31)
  {
    ConfiguredDates();
  }

  /** Fifteen days of one month give 360 names, from hour 0 of the first to hour 23 of the last. */
  lemma FifteenDays(name: Namer, year: nat, month: nat, d1: nat)
    ensures |ArchiveNamesOf(name, year, month, d1, year, month, d1 + 14)| == 360
    ensures ArchiveNamesOf(name, year, month, d1, year, month, d1 + 14)[0] == name(year, month, d1, 0)
    ensures ArchiveNamesOf(name, year, month, d1, year, month, d1 + 14)[359] == name(year, month, d1 + 14, 23)
  {
    ArchiveNamesCount(name, year, month, d1, year, month, d1 + 14);
    ArchiveNamesAt(name, year, month, d1, year, month, d1 + 14, 0, 0, 0, 0);
    ArchiveNamesAt(name, year, month, d1, year, month, d1 + 14, 0, 0, 14, 23);
  }

  /**
   * The configured range reads 15 days of 24 archives, from hour 0 of
   * 17 August 2017 to hour 23 of 31 August 2017.
   */
  lemma ConfiguredArchives()
    ensures |ExtractRangeOf(DateStart, DateEnd)| == 360
    ensures ExtractRangeOf(DateStart, DateEnd)[0] == FileName(2017, 8, 17, 0)
    ensures ExtractRangeOf(DateStart, DateEnd)[359] == FileName(2017, 8, 31, 23)
  {
    ConfiguredRange();
    FifteenDays(FileName, 2017, 8, 17);
  }

  /**
   * A range across a month end reads nothing: from 31 August to 1 September
   * the day range 31..1 is empty in every month.
   */
  lemma MonthEndRangeEmpty()
    ensures ExtractRangeOf("20170831", "20170901") == []
  {
    MonthEndDates();
    ArchiveNamesEmpty(FileName, 2017, 8, 31, 2017, 9, 1);
  }

  lemma MonthEndDates()
    ensures ExtractDate("20170831") == (2017, 8, 31)
    ensures ExtractDate("20170901") == (2017, 9, 1)
  {
    assert DateString(2017, 8, 31) + "" == "20170831";
    assert DateString(2017, 9, 1) + "" == "20170901";
    ExtractDateRoundTrip(2017, 8, 31, "");
    ExtractDateRoundTrip(2017, 9, 1, "");
  }
}
