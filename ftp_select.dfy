/** Which files `stream_ftp` imports and in what order. From the FTP listing it
    keeps the names with '_' or '-' that contain the keyword; a name with '_' is
    keyed by the date after its first '_', any other by the number in its last
    nine characters; each group is sorted by (key, name), the workbooks go first,
    and each file goes to the importer its name calls for. */
module FtpSelect {
  import opened Wrappers
  import opened Strings
  import opened Calendar

  /** What `stream_ftp` raises while choosing and ordering the files. */
  datatype SelectError =
    | UnreadableDate(name: string) // strptime raised on the date piece of the name
    | NotANumber(name: string)     // int() raised on the tail of the name
    | NoSecondPiece(name: string)  // `split('_')[1]` raised IndexError

  /** A file name with the key it is sorted by: the tuples of `csvs` and `xlsxs`. */
  datatype Entry = Entry(key: int, name: string)

  /** A file and the importer it is handed to, with the date text a CSV file is stamped with. */
  datatype Job = XlsxJob(name: string) | CsvJob(name: string, fileDate: string)

  function JobName(job: Job): string
  {
    match job
    case XlsxJob(name) => name
    case CsvJob(name, _) => name
  }

  // ----- the filter -----

  /** `('_' in name or '-' in name) and keyword in name.lower()`. */
  predicate Wanted(name: string, keyword: string)
  {
    ('_' in name || '-' in name) && Contains(Lower(name), keyword)
  }

  /** The names of the listing that pass the filter, in listing order. */
  function Filter(names: seq<string>, keyword: string): seq<string>
    decreases |names|
  {
    if names == [] then []
    else
      var n := |names| - 1;
      Filter(names[..n], keyword) + (if Wanted(names[n], keyword) then [names[n]] else [])
  }

  /** A name is kept exactly when it is listed and passes the filter. */
  lemma {:induction false} FilterMembers(names: seq<string>, keyword: string)
    ensures forall x :: x in Filter(names, keyword) <==> x in names && Wanted(x, keyword)
    decreases |names|
  {
    if names != [] {
      var n := |names| - 1;
      FilterMembers(names[..n], keyword);
      assert names == names[..n] + [names[n]];
    }
  }

  /** Filtering keeps the listing order: the kept names of a longer listing extend
      those of its beginning. */
  lemma {:induction false} FilterAppend(a: seq<string>, b: seq<string>, keyword: string)
    ensures Filter(a + b, keyword) == Filter(a, keyword) + Filter(b, keyword)
    decreases |b|
  {
    if b == [] {
      assert a + b == a;
    } else {
      var n := |b| - 1;
      FilterAppend(a, b[..n], keyword);
      assert (a + b)[..|a + b| - 1] == a + b[..n];
    }
  }

  // ----- Python's int() on a text -----

  /** The ASCII whitespace `int()` removes: space, tab to carriage return, and
      the four separators from file separator to unit separator. */
  predicate IsSpace(c: char) { c == ' ' || '\t' <= c <= '\r' || '\U{1C}' <= c <= '\U{1F}' }

  function StripLeft(s: string): (r: string)
    ensures |r| <= |s|
    decreases |s|
  {
    if s != [] && IsSpace(s[0]) then StripLeft(s[1..]) else s
  }

  function StripRight(s: string): (r: string)
    ensures |r| <= |s|
    decreases |s|
  {
    if s != [] && IsSpace(s[|s| - 1]) then StripRight(s[..|s| - 1]) else s
  }

  predicate DigitsOrUnderscores(t: string)
  {
    forall i :: 0 <= i < |t| ==> IsDigit(t[i]) || t[i] == '_'
  }

  /** Decimal digits, each '_' between two of them. */
  predicate DigitRun(t: string)
  {
    && |t| > 0 && IsDigit(t[0]) && IsDigit(t[|t| - 1]) && DigitsOrUnderscores(t)
    && forall i :: 0 <= i < |t| - 1 && t[i] == '_' ==> IsDigit(t[i + 1])
  }

  /** The digits of a run with its underscores removed. */
  function DropUnderscores(t: string): (r: string)
    requires DigitsOrUnderscores(t)
    ensures AllDigits(r)
    decreases |t|
  {
    if t == [] then []
    else if t[0] == '_' then DropUnderscores(t[1..])
    else [t[0]] + DropUnderscores(t[1..])
  }

  /** `int(s)`: surrounding whitespace, an optional sign, then a run of digits that
      may hold single underscores between digits; anything else raises (None). */
  function PyInt(s: string): (r: Option<int>)
  {
    var t := StripRight(StripLeft(s));
    if t != [] && (t[0] == '-' || t[0] == '+') then
      if DigitRun(t[1..]) then
        var v: int := DigitsValue(DropUnderscores(t[1..]));
        Some(if t[0] == '-' then -v else v)
      else None
    else if DigitRun(t) then Some(DigitsValue(DropUnderscores(t)))
    else None
  }

  lemma {:induction false} DropNone(t: string)
    requires AllDigits(t)
    ensures DropUnderscores(t) == t
    decreases |t|
  {
    if t != [] {
      DropNone(t[1..]);
      assert [t[0]] + t[1..] == t;
    }
  }

  /** A plain run of digits keys as its decimal value. */
  lemma PyIntDigits(s: string)
    requires s != [] && AllDigits(s)
    ensures PyInt(s) == Some(DigitsValue(s))
  {
    assert StripLeft(s) == s;
    assert StripRight(s) == s;
    DropNone(s);
  }

  /** Text with no digit in it never keys as a number. */
  lemma PyIntNeedsDigit(s: string)
    requires forall i :: 0 <= i < |s| ==> !IsDigit(s[i])
    ensures PyInt(s).None?
  {
    var t := StripRight(StripLeft(s));
    StripKeeps(s);
    if t != [] {
      assert t[0] in t && t[|t| - 1] in t;
      if |t| > 1 {
        assert t[1..][0] in t;
      }
    }
  }

  /** Stripping takes a slice, so every character left was in the input. */
  lemma StripKeeps(s: string)
    ensures forall c :: c in StripRight(StripLeft(s)) ==> c in s
  {
    StripLeftSlice(s);
    StripRightSlice(StripLeft(s));
  }

  lemma {:induction false} StripLeftSlice(s: string)
    ensures exists k :: 0 <= k <= |s| && StripLeft(s) == s[k..]
    decreases |s|
  {
    if s != [] && IsSpace(s[0]) {
      StripLeftSlice(s[1..]);
      var k :| 0 <= k <= |s[1..]| && StripLeft(s[1..]) == s[1..][k..];
      assert s[1..][k..] == s[k + 1..];
    } else {
      assert s == s[0..];
    }
  }

  lemma {:induction false} StripRightSlice(s: string)
    ensures exists k :: 0 <= k <= |s| && StripRight(s) == s[..k]
    decreases |s|
  {
    if s != [] && IsSpace(s[|s| - 1]) {
      StripRightSlice(s[..|s| - 1]);
      var k :| 0 <= k <= |s| - 1 && StripRight(s[..|s| - 1]) == s[..|s| - 1][..k];
      assert s[..|s| - 1][..k] == s[..k];
    } else {
      assert s == s[..|s|];
    }
  }

  // ----- the sort keys -----

  /** `name.split('_')[1]`, or None where that raises IndexError. */
  function SecondPiece(name: string): Option<string>
  {
    var parts := Split(name, "_");
    if |parts| >= 2 then Some(parts[1]) else None
  }

  /** `datetime.strptime(name.split('_')[1].replace('.csv', ''), '%Y%m%d').date()`. */
  function CsvKey(name: string): (r: Result<Date, SelectError>)
    ensures r.Ok? ==> ValidDate(r.value)
  {
    match SecondPiece(name)
    case None => Err(NoSecondPiece(name))
    case Some(piece) =>
      match ParseCompact(ReplaceAll(piece, ".csv", ""))
      case None => Err(UnreadableDate(name))
      case Some(d) => Ok(d)
  }

  /** `name[-9:]`: the last nine characters, or all of a shorter name. */
  function LastNine(name: string): (r: string)
    ensures |r| <= 9
  {
    if |name| >= 9 then name[|name| - 9..] else name
  }

  /** `int(name[-9:].replace('.xlsx', ''))`. */
  function XlsxKey(name: string): Result<int, SelectError>
  {
    match PyInt(ReplaceAll(LastNine(name), ".xlsx", ""))
    case None => Err(NotANumber(name))
    case Some(n) => Ok(n)
  }

  /** The tuple a kept name is sorted by: a date for a name with '_' (its
      'YYYYMMDD' number orders dates the same way), a number for any other. */
  function EntryOf(name: string): Result<Entry, SelectError>
  {
    if '_' in name then
      match CsvKey(name)
      case Err(e) => Err(e)
      case Ok(d) => Ok(Entry(DateKey(d), name))
    else
      match XlsxKey(name)
      case Err(e) => Err(e)
      case Ok(n) => Ok(Entry(n, name))
  }

  /** A name `<prefix>_YYYYMMDD.csv` is keyed by its date. */
  /** In `<prefix>_<rest>` with no other '_', the second piece is `rest`. */
  lemma SecondPieceOf(prefix: string, rest: string)
    requires '_' !in prefix && '_' !in rest
    ensures SecondPiece(prefix + "_" + rest) == Some(rest)
  {
    assert prefix + "_" + rest == prefix + ['_'] + rest;
    SplitAfter(prefix, '_', rest);
    SplitNone(rest, '_');
  }

  lemma CsvNameKey(prefix: string, d: Date)
    requires ValidDate(d) && '_' !in prefix
    ensures CsvKey(prefix + "_" + FormatCompact(d) + ".csv") == Ok(d)
  {
    var digits := FormatCompact(d);
    assert prefix + "_" + digits + ".csv" == prefix + "_" + (digits + ".csv");
    assert '_' !in digits + ".csv" && '.' !in digits by {
      assert forall i :: 0 <= i < |digits| ==> IsDigit(digits[i]);
    }
    SecondPieceOf(prefix, digits + ".csv");
    ReplaceSkips(digits, ".csv", "", ".csv");
    ReplaceWhole(".csv", "");
    assert digits + [] == digits;
    CompactRoundTrip(d);
  }

  /** A name ending in four digits and '.xlsx' is keyed by the number they spell. */
  lemma XlsxNameKey(prefix: string, digits: string)
    requires |digits| == 4 && AllDigits(digits)
    ensures XlsxKey(prefix + digits + ".xlsx") == Ok(DigitsValue(digits))
  {
    var name := prefix + digits + ".xlsx";
    assert LastNine(name) == digits + ".xlsx";
    assert '.' !in digits by {
      assert forall i :: 0 <= i < |digits| ==> IsDigit(digits[i]);
    }
    ReplaceSkips(digits, ".xlsx", "", ".xlsx");
    ReplaceWhole(".xlsx", "");
    assert digits + [] == digits;
    PyIntDigits(digits);
  }

  // ----- the sort -----

  /** The order of the tuples: by key, then by name. */
  predicate EntryLe(a: Entry, b: Entry)
  {
    a.key < b.key || (a.key == b.key && StrLe(a.name, b.name))
  }

  lemma EntryLeFacts(a: Entry, b: Entry, c: Entry)
    ensures EntryLe(a, a)
    ensures EntryLe(a, b) || EntryLe(b, a)
    ensures EntryLe(a, b) && EntryLe(b, c) ==> EntryLe(a, c)
    ensures EntryLe(a, b) && EntryLe(b, a) ==> a == b
  {
    StrLeRefl(a.name);
    StrLeTotal(a.name, b.name);
    if EntryLe(a, b) && EntryLe(b, a) {
      StrLeAntisym(a.name, b.name);
    }
    if EntryLe(a, b) && EntryLe(b, c) && a.key == b.key && b.key == c.key {
      StrLeTrans(a.name, b.name, c.name);
    }
  }

  predicate IsSorted(s: seq<Entry>)
  {
    forall i, j :: 0 <= i < j < |s| ==> EntryLe(s[i], s[j])
  }

  function Insert(x: Entry, s: seq<Entry>): (r: seq<Entry>)
    requires IsSorted(s)
    ensures IsSorted(r) && multiset(r) == multiset(s) + multiset{x}
    decreases |s|
  {
    if s == [] then [x]
    else if EntryLe(x, s[0]) then
      InsertFront(x, s);
      [x] + s
    else
      var rest := Insert(x, s[1..]);
      InsertBehind(x, s, rest);
      assert s == [s[0]] + s[1..];
      [s[0]] + rest
  }

  lemma InsertFront(x: Entry, s: seq<Entry>)
    requires IsSorted(s) && s != [] && EntryLe(x, s[0])
    ensures IsSorted([x] + s)
  {
    forall j | 0 <= j < |s|
      ensures EntryLe(x, s[j])
    {
      EntryLeFacts(x, s[0], s[j]);
    }
  }

  lemma InsertBehind(x: Entry, s: seq<Entry>, rest: seq<Entry>)
    requires IsSorted(s) && s != [] && !EntryLe(x, s[0])
    requires IsSorted(rest) && multiset(rest) == multiset(s[1..]) + multiset{x}
    ensures IsSorted([s[0]] + rest)
  {
    EntryLeFacts(x, s[0], x);
    forall j | 0 <= j < |rest|
      ensures EntryLe(s[0], rest[j])
    {
      assert rest[j] in multiset(rest);
      if rest[j] != x {
        assert rest[j] in s[1..];
        var k :| 0 <= k < |s[1..]| && s[1..][k] == rest[j];
        assert s[k + 1] == rest[j];
      }
    }
  }

  /** `list.sort()` on the tuples: the entries in ascending (key, name) order. */
  function SortEntries(a: seq<Entry>): (r: seq<Entry>)
    ensures IsSorted(r) && multiset(r) == multiset(a)
    decreases |a|
  {
    if a == [] then []
    else
      var n := |a| - 1;
      assert a == a[..n] + [a[n]];
      Insert(a[n], SortEntries(a[..n]))
  }

  /** The order is total and two different tuples never tie, so there is one
      ascending arrangement of a list: whatever the sort does, it gives this one. */
  lemma {:induction false} SortedUnique(a: seq<Entry>, b: seq<Entry>)
    requires IsSorted(a) && IsSorted(b) && multiset(a) == multiset(b)
    ensures a == b
    decreases |a|
  {
    if a != [] {
      SortedHeads(a, b);
      assert a == [a[0]] + a[1..] && b == [b[0]] + b[1..];
      assert multiset(a) == multiset{a[0]} + multiset(a[1..]);
      assert multiset(b) == multiset{b[0]} + multiset(b[1..]);
      assert multiset(a[1..]) == multiset(a) - multiset{a[0]};
      assert multiset(b[1..]) == multiset(b) - multiset{b[0]};
      SortedUnique(a[1..], b[1..]);
    }
  }

  /** Two ascending arrangements of the same tuples start with the same one. */
  lemma SortedHeads(a: seq<Entry>, b: seq<Entry>)
    requires IsSorted(a) && IsSorted(b) && multiset(a) == multiset(b) && a != []
    ensures b != [] && a[0] == b[0]
  {
    assert a[0] in multiset(b);
    var i :| 0 <= i < |b| && b[i] == a[0];
    assert b[0] in multiset(a);
    var j :| 0 <= j < |a| && a[j] == b[0];
    assert EntryLe(b[0], b[i]) || i == 0;
    assert EntryLe(a[0], a[j]) || j == 0;
    EntryLeFacts(a[0], b[0], a[0]);
  }

  // ----- grouping, ordering and the importer of each file -----

  /** The two lists built from the kept names: `csvs` for names with '_',
      `xlsxs` for the others, each in the order the names were kept. */
  datatype Groups = Groups(csvs: seq<Entry>, xlsxs: seq<Entry>)

  /** The key read from each kept name, in order. */
  function Reads(kept: seq<string>): (r: seq<Result<Entry, SelectError>>)
    ensures |r| == |kept| && forall i :: 0 <= i < |kept| ==> r[i] == EntryOf(kept[i])
  {
    seq(|kept|, i requires 0 <= i < |kept| => EntryOf(kept[i]))
  }

  /** The loop that fills `csvs` and `xlsxs`, given the key read from each
      kept name; the first name whose key cannot be read raises and ends
      `stream_ftp`. */
  function Group(keys: seq<Result<Entry, SelectError>>): Result<Groups, SelectError>
    decreases |keys|
  {
    if keys == [] then Ok(Groups([], []))
    else GroupStep(Group(keys[..|keys| - 1]), keys[|keys| - 1])
  }

  /** One turn of the loop: the entry goes into the list its name's '_' calls for. */
  function GroupStep(prev: Result<Groups, SelectError>, read: Result<Entry, SelectError>): Result<Groups, SelectError>
  {
    match prev
    case Err(e) => Err(e)
    case Ok(g) =>
      match read
      case Err(e) => Err(e)
      case Ok(entry) =>
        if '_' in entry.name then Ok(g.(csvs := g.csvs + [entry])) else Ok(g.(xlsxs := g.xlsxs + [entry]))
  }

  function Classify(kept: seq<string>): Result<Groups, SelectError>
  {
    Group(Reads(kept))
  }

  /** `xlsxs + csvs` after both are sorted. */
  function Arrange(g: Groups): seq<Entry>
  {
    SortEntries(g.xlsxs) + SortEntries(g.csvs)
  }

  /** The importer a file goes to: a name containing 'xlsx' is a workbook; any
      other is a CSV file stamped with the ISO form of the date in
      `name.split('_')[1].split('.')[0]`. */
  function JobOf(name: string): Result<Job, SelectError>
  {
    if Contains(name, "xlsx") then Ok(XlsxJob(name))
    else
      match SecondPiece(name)
      case None => Err(NoSecondPiece(name))
      case Some(piece) =>
        match ParseCompact(Split(piece, ".")[0])
        case None => Err(UnreadableDate(name))
        case Some(d) => Ok(CsvJob(name, FormatIso(d)))
  }

  /** Steps that each give a value or raise, run in order: the values, or the
      first error, after which no step runs. */
  function Collect<T>(rs: seq<Result<T, SelectError>>): Result<seq<T>, SelectError>
    decreases |rs|
  {
    if rs == [] then Ok([])
    else
      var n := |rs| - 1;
      match Collect(rs[..n])
      case Err(e) => Err(e)
      case Ok(vs) =>
        match rs[n]
        case Err(e) => Err(e)
        case Ok(v) => Ok(vs + [v])
  }

  /** The job of each file, in order. */
  function JobResults(files: seq<Entry>): (r: seq<Result<Job, SelectError>>)
    ensures |r| == |files| && forall i :: 0 <= i < |files| ==> r[i] == JobOf(files[i].name)
  {
    seq(|files|, i requires 0 <= i < |files| => JobOf(files[i].name))
  }

  /** The jobs of the files in order; the first file whose job cannot be made raises. */
  function Jobs(files: seq<Entry>): Result<seq<Job>, SelectError>
  {
    Collect(JobResults(files))
  }

  /** What `stream_ftp` hands to the importers for a listing, in order, or what it raises. */
  function Selection(listing: seq<string>, keyword: string): (r: Result<seq<Job>, SelectError>)
    ensures Classify(Filter(listing, keyword)).Err? ==> r == Err(Classify(Filter(listing, keyword)).error)
    ensures r.Ok? ==> |r.value| == |Filter(listing, keyword)|
  {
    var kept := Filter(listing, keyword);
    match Classify(kept)
    case Err(e) => Err(e)
    case Ok(g) =>
      ArrangedCount(kept);
      Jobs(Arrange(g))
  }

  /** Every kept name gives one job: the two sorted lists together are as long
      as the kept names. */
  lemma ArrangedCount(kept: seq<string>)
    requires Classify(kept).Ok?
    ensures var files := Arrange(Classify(kept).value);
      Jobs(files).Ok? ==> |Jobs(files).value| == |kept|
  {
    var g := Classify(kept).value;
    ClassifyGroups(kept);
    assert |multiset(Names(g.csvs))| + |multiset(Names(g.xlsxs))| == |multiset(kept)|;
    assert |SortEntries(g.xlsxs)| == |multiset(g.xlsxs)|;
    assert |SortEntries(g.csvs)| == |multiset(g.csvs)|;
    if Jobs(Arrange(g)).Ok? {
      JobsFollowFiles(Arrange(g));
    }
  }

  /** The filter loop of `stream_ftp`. */
  method FilterNames(listing: seq<string>, keyword: string) returns (preprocess: seq<string>)
    ensures preprocess == Filter(listing, keyword)
  {
    preprocess := [];
    for i := 0 to |listing|
      invariant preprocess == Filter(listing[..i], keyword)
    {
      assert listing[..i + 1][..i] == listing[..i];
      var name := listing[i];
      if ('_' in name || '-' in name) && Contains(Lower(name), keyword) {
        preprocess := preprocess + [name];
      }
    }
    assert listing[..|listing|] == listing;
  }

  /** The key loop of `stream_ftp`, which stops at the first name that raises. */
  method ClassifyNames(preprocess: seq<string>) returns (r: Result<Groups, SelectError>)
    ensures r == Classify(preprocess)
  {
    var csvs: seq<Entry> := [];
    var xlsxs: seq<Entry> := [];
    for i := 0 to |preprocess|
      invariant Group(Reads(preprocess)[..i]) == Ok(Groups(csvs, xlsxs))
    {
      assert Reads(preprocess)[..i + 1][..i] == Reads(preprocess)[..i];
      var file := preprocess[i];
      if '_' in file {
        var key := CsvKey(file);
        if key.Err? {
          GroupFailFast(Reads(preprocess), i + 1);
          return Err(key.error);
        }
        csvs := csvs + [Entry(DateKey(key.value), file)];
      } else {
        var key := XlsxKey(file);
        if key.Err? {
          GroupFailFast(Reads(preprocess), i + 1);
          return Err(key.error);
        }
        xlsxs := xlsxs + [Entry(key.value, file)];
      }
    }
    assert Reads(preprocess)[..|preprocess|] == Reads(preprocess);
    r := Ok(Groups(csvs, xlsxs));
  }

  /** The loop over the sorted files, which stops at the first file that raises. */
  method MakeJobs(files: seq<Entry>) returns (r: Result<seq<Job>, SelectError>)
    ensures r == Jobs(files)
  {
    var jobs: seq<Job> := [];
    for i := 0 to |files|
      invariant Collect(JobResults(files)[..i]) == Ok(jobs)
    {
      assert JobResults(files)[..i + 1][..i] == JobResults(files)[..i];
      var job := JobOf(files[i].name);
      assert JobResults(files)[i] == job;
      if job.Err? {
        CollectFailFast(JobResults(files), i + 1);
        return Err(job.error);
      }
      jobs := jobs + [job.value];
    }
    assert JobResults(files)[..|files|] == JobResults(files);
    r := Ok(jobs);
  }

  /** The selection part of `stream_ftp`: filter, read the keys, sort both
      lists and make the job of each file; the downloads and imports are not
      part of this model. */
  method SelectFiles(listing: seq<string>, keyword: string) returns (r: Result<seq<Job>, SelectError>)
    ensures r == Selection(listing, keyword)
  {
    var preprocess := FilterNames(listing, keyword);
    var groups := ClassifyNames(preprocess);
    if groups.Err? {
      return Err(groups.error);
    }
    var csvs := SortEntries(groups.value.csvs);
    var xlsxs := SortEntries(groups.value.xlsxs);
    r := MakeJobs(xlsxs + csvs);
  }

  /** Once a name has raised, the names after it change nothing. */
  lemma {:induction false} GroupFailFast(keys: seq<Result<Entry, SelectError>>, i: nat)
    requires i <= |keys| && Group(keys[..i]).Err?
    ensures Group(keys) == Group(keys[..i])
    decreases |keys|
  {
    if i < |keys| {
      var n := |keys| - 1;
      assert keys[..n][..i] == keys[..i];
      GroupFailFast(keys[..n], i);
    } else {
      assert keys[..i] == keys;
    }
  }

  /** Once a step has raised, the steps after it change nothing. */
  lemma {:induction false} CollectFailFast<T>(rs: seq<Result<T, SelectError>>, i: nat)
    requires i <= |rs| && Collect(rs[..i]).Err?
    ensures Collect(rs) == Collect(rs[..i])
    decreases |rs|
  {
    if i < |rs| {
      var n := |rs| - 1;
      assert rs[..n][..i] == rs[..i];
      CollectFailFast(rs[..n], i);
    } else {
      assert rs[..i] == rs;
    }
  }

  /** The steps go through exactly when none raises; the values are then those
      of the steps, one for one. */
  lemma {:induction false} CollectOk<T>(rs: seq<Result<T, SelectError>>)
    ensures Collect(rs).Ok? <==> forall i :: 0 <= i < |rs| ==> rs[i].Ok?
    ensures Collect(rs).Ok? ==>
      |Collect(rs).value| == |rs| && forall i :: 0 <= i < |rs| ==> rs[i] == Ok(Collect(rs).value[i])
    decreases |rs|
  {
    if rs != [] {
      var n := |rs| - 1;
      var front := rs[..n];
      CollectOk(front);
      if Collect(front).Err? {
        var i :| 0 <= i < n && front[i].Err?;
        assert front[i] == rs[i];
      } else {
        assert forall i :: 0 <= i < n ==> front[i] == rs[i];
      }
    }
  }

  // ----- what the selection promises -----

  /** The names of a list of entries, in order. */
  function Names(es: seq<Entry>): (r: seq<string>)
    ensures |r| == |es|
  {
    if es == [] then [] else [es[0].name] + Names(es[1..])
  }

  lemma {:induction false} NamesAt(es: seq<Entry>, i: nat)
    requires i < |es|
    ensures Names(es)[i] == es[i].name
    decreases |es|
  {
    if i > 0 {
      NamesAt(es[1..], i - 1);
    }
  }

  /** An entry of `csvs`: a name with '_' carrying the key read from it. */
  predicate CsvEntry(e: Entry)
  {
    '_' in e.name && EntryOf(e.name) == Ok(e)
  }

  /** An entry of `xlsxs`: a name without '_' carrying the key read from it. */
  predicate XlsxEntry(e: Entry)
  {
    '_' !in e.name && EntryOf(e.name) == Ok(e)
  }

  /** The entries of the keys that were read, in order. */
  function Oks(keys: seq<Result<Entry, SelectError>>): seq<Entry>
    decreases |keys|
  {
    if keys == [] then []
    else
      var n := |keys| - 1;
      Oks(keys[..n]) + (if keys[n].Ok? then [keys[n].value] else [])
  }

  /** The key loop goes through without raising exactly when every key was read. */
  lemma {:induction false} GroupOk(keys: seq<Result<Entry, SelectError>>)
    ensures Group(keys).Ok? <==> forall i :: 0 <= i < |keys| ==> keys[i].Ok?
    decreases |keys|
  {
    if keys != [] {
      var n := |keys| - 1;
      var front := keys[..n];
      GroupOk(front);
      if Group(front).Err? {
        var i :| 0 <= i < n && front[i].Err?;
        assert front[i] == keys[i];
      } else {
        assert forall i :: 0 <= i < n ==> front[i] == keys[i];
      }
    }
  }

  /** When it goes through, each entry lands in the list its '_' calls for, and
      the two lists together hold exactly the entries read. */
  lemma {:induction false} GroupContents(keys: seq<Result<Entry, SelectError>>)
    requires Group(keys).Ok?
    ensures var g := Group(keys).value;
      && (forall e :: e in g.csvs ==> '_' in e.name && Ok(e) in keys)
      && (forall e :: e in g.xlsxs ==> '_' !in e.name && Ok(e) in keys)
      && multiset(g.csvs) + multiset(g.xlsxs) == multiset(Oks(keys))
    decreases |keys|
  {
    if keys != [] {
      var n := |keys| - 1;
      var front := keys[..n];
      GroupContents(front);
      SplitLast(keys);
      assert forall x :: x in front ==> x in keys;
    }
  }

  lemma EntryNamed(name: string)
    requires EntryOf(name).Ok?
    ensures EntryOf(name).value.name == name
  {
  }

  /** When every key is read and carries its name, the entries read carry the
      kept names in order. */
  lemma {:induction false} OksNames(keys: seq<Result<Entry, SelectError>>, kept: seq<string>)
    requires |keys| == |kept|
    requires forall i :: 0 <= i < |kept| ==> keys[i].Ok? && keys[i].value.name == kept[i]
    ensures Names(Oks(keys)) == kept
    decreases |kept|
  {
    if kept != [] {
      var n := |kept| - 1;
      var front := kept[..n];
      assert forall i :: 0 <= i < n ==> keys[..n][i] == keys[i];
      OksNames(keys[..n], front);
      NamesConcat(Oks(keys[..n]), [keys[n].value]);
      SplitLast(kept);
    }
  }

  /** The key loop goes through without raising exactly when every kept name
      has a readable key. */
  lemma ClassifyOk(kept: seq<string>)
    ensures Classify(kept).Ok? <==> forall i :: 0 <= i < |kept| ==> EntryOf(kept[i]).Ok?
  {
    GroupOk(Reads(kept));
  }

  /** When the key loop goes through, it puts each kept name, with its key, in
      the list its '_' calls for, and loses none. */
  lemma ClassifyGroups(kept: seq<string>)
    requires Classify(kept).Ok?
    ensures var g := Classify(kept).value;
      && (forall e :: e in g.csvs ==> CsvEntry(e))
      && (forall e :: e in g.xlsxs ==> XlsxEntry(e))
      && multiset(Names(g.csvs)) + multiset(Names(g.xlsxs)) == multiset(kept)
  {
    var keys := Reads(kept);
    var g := Group(keys).value;
    GroupContents(keys);
    GroupOk(keys);
    forall i | 0 <= i < |kept|
      ensures keys[i] == EntryOf(kept[i]) && keys[i].Ok? && keys[i].value.name == kept[i]
    {
      EntryNamed(kept[i]);
    }
    OksNames(keys, kept);
    NamesConcat(g.csvs, g.xlsxs);
    NamesMultiset(g.csvs + g.xlsxs, Oks(keys));
  }

  /** The loop over the files goes through exactly when every file has a job. */
  lemma JobsOk(files: seq<Entry>)
    ensures Jobs(files).Ok? <==> forall i :: 0 <= i < |files| ==> JobOf(files[i].name).Ok?
  {
    CollectOk(JobResults(files));
  }

  /** When it goes through, the jobs follow the files one for one. */
  lemma JobsFollowFiles(files: seq<Entry>)
    requires Jobs(files).Ok?
    ensures |Jobs(files).value| == |files|
    ensures forall i :: 0 <= i < |files| ==> JobOf(files[i].name) == Ok(Jobs(files).value[i])
  {
    CollectOk(JobResults(files));
  }

  lemma JobNamed(name: string)
    requires JobOf(name).Ok?
    ensures JobName(JobOf(name).value) == name
  {
  }

  /** The sorted lists hold the same entries as the unsorted ones. */
  lemma SortedMembers(a: seq<Entry>)
    ensures forall e :: e in SortEntries(a) <==> e in a
  {
    var r := SortEntries(a);
    forall e
      ensures e in r <==> e in a
    {
      assert e in r <==> e in multiset(r);
      assert e in a <==> e in multiset(a);
    }
  }

  lemma {:induction false} NamesConcat(a: seq<Entry>, b: seq<Entry>)
    ensures Names(a + b) == Names(a) + Names(b)
    decreases |a|
  {
    if a == [] {
      assert a + b == b;
    } else {
      NamesConcat(a[1..], b);
      assert (a + b)[1..] == a[1..] + b;
    }
  }

  lemma MultisetRemove<T>(b: seq<T>, k: nat)
    requires k < |b|
    ensures multiset(b) == multiset{b[k]} + multiset(b[..k] + b[k + 1..])
  {
    assert b == b[..k] + [b[k]] + b[k + 1..];
  }

  lemma SplitAt<T>(b: seq<T>, k: nat)
    requires k < |b|
    ensures b == b[..k] + ([b[k]] + b[k + 1..])
  {
  }

  lemma SplitLast<T>(s: seq<T>)
    requires s != []
    ensures s == s[..|s| - 1] + [s[|s| - 1]]
  {
  }

  lemma MultisetSplit<T>(lo: seq<T>, m: T, hi: seq<T>)
    ensures multiset(lo + ([m] + hi)) == multiset{m} + multiset(lo + hi)
  {
  }

  /** Taking out one entry takes out one name. */
  lemma NamesRemove(b: seq<Entry>, k: nat)
    requires k < |b|
    ensures multiset(Names(b)) == multiset{b[k].name} + multiset(Names(b[..k] + b[k + 1..]))
  {
    var lo, mid, hi := b[..k], [b[k]], b[k + 1..];
    SplitAt(b, k);
    NamesConcat(lo, mid + hi);
    NamesConcat(mid, hi);
    NamesConcat(lo, hi);
    assert Names(mid) == [b[k].name];
    MultisetSplit(Names(lo), b[k].name, Names(hi));
  }

  /** Matching the head of `a` with `b[k]` leaves two permutations of each other. */
  lemma MultisetTail<T>(a: seq<T>, b: seq<T>, k: nat)
    requires multiset(a) == multiset(b) && k < |b| && a != [] && b[k] == a[0]
    ensures multiset(a[1..]) == multiset(b[..k] + b[k + 1..])
  {
    MultisetRemove(a, 0);
    MultisetRemove(b, k);
    assert a[..0] + a[1..] == a[1..];
    assert multiset(a[1..]) == multiset(a) - multiset{a[0]};
  }

  /** Entries that are a permutation of each other have names that are too. */
  lemma {:induction false} NamesMultiset(a: seq<Entry>, b: seq<Entry>)
    requires multiset(a) == multiset(b)
    ensures multiset(Names(a)) == multiset(Names(b))
    decreases |a|
  {
    if a == [] {
      assert |b| == |multiset(b)| == 0;
    } else {
      assert a[0] in multiset(b);
      var k :| 0 <= k < |b| && b[k] == a[0];
      MultisetTail(a, b, k);
      NamesMultiset(a[1..], b[..k] + b[k + 1..]);
      NamesRemove(a, 0);
      assert a[..0] + a[1..] == a[1..];
      NamesRemove(b, k);
    }
  }

  /** The two lists as the key loop leaves them: each entry carries the key
      read from its name, in the list its '_' calls for. */
  predicate WellGrouped(g: Groups)
  {
    (forall e :: e in g.csvs ==> CsvEntry(e)) && (forall e :: e in g.xlsxs ==> XlsxEntry(e))
  }

  /** In the arranged list the names without '_' come first, then those with '_'. */
  lemma ArrangeGroups(g: Groups)
    requires WellGrouped(g)
    ensures var files := Arrange(g);
      && |files| == |g.xlsxs| + |g.csvs|
      && (forall i :: 0 <= i < |g.xlsxs| ==> '_' !in files[i].name)
      && (forall i :: |g.xlsxs| <= i < |files| ==> '_' in files[i].name)
  {
    SortedMembers(g.xlsxs);
    SortedMembers(g.csvs);
    var sx, sc := SortEntries(g.xlsxs), SortEntries(g.csvs);
    assert |sx| == |multiset(sx)| == |g.xlsxs|;
    assert |sc| == |multiset(sc)| == |g.csvs|;
    forall i | 0 <= i < |sx| ensures '_' !in Arrange(g)[i].name {
      assert Arrange(g)[i] == sx[i];
      assert sx[i] in g.xlsxs;
    }
    forall i | |sx| <= i < |sx| + |sc| ensures '_' in Arrange(g)[i].name {
      ConcatIndex(sx, sc, i);
      assert sc[i - |sx|] in g.csvs;
    }
  }

  /** Two files with '_' in the arranged list are entries of `csvs` in order. */
  lemma ArrangedCsvPair(g: Groups, i: nat, j: nat)
    requires WellGrouped(g)
    requires |SortEntries(g.xlsxs)| <= i < j < |Arrange(g)|
    ensures CsvEntry(Arrange(g)[i]) && CsvEntry(Arrange(g)[j]) && EntryLe(Arrange(g)[i], Arrange(g)[j])
  {
    var sx, sc := SortEntries(g.xlsxs), SortEntries(g.csvs);
    var m := |sx|;
    ConcatIndex(sx, sc, i);
    ConcatIndex(sx, sc, j);
    var a, b := sc[i - m], sc[j - m];
    assert EntryLe(a, b);
    SortedMembers(g.csvs);
    assert a in sc && b in sc;
  }

  lemma ConcatIndex<T>(x: seq<T>, y: seq<T>, i: nat)
    requires |x| <= i < |x| + |y|
    ensures (x + y)[i] == y[i - |x|]
  {
  }

  /** Two files with '_' in the arranged list are in the order of their dates. */
  lemma ArrangedByDate(g: Groups, i: nat, j: nat)
    requires WellGrouped(g)
    requires |SortEntries(g.xlsxs)| <= i < j < |Arrange(g)|
    ensures var a, b := Arrange(g)[i].name, Arrange(g)[j].name;
      CsvKey(a).Ok? && CsvKey(b).Ok? && !DateLess(CsvKey(b).value, CsvKey(a).value)
  {
    ArrangedCsvPair(g, i, j);
    CsvPairOrder(Arrange(g)[i], Arrange(g)[j]);
  }

  /** Two files without '_' in the arranged list are in the order of their numbers. */
  lemma ArrangedByNumber(g: Groups, i: nat, j: nat)
    requires WellGrouped(g)
    requires i < j < |SortEntries(g.xlsxs)|
    ensures var a, b := Arrange(g)[i].name, Arrange(g)[j].name;
      XlsxKey(a).Ok? && XlsxKey(b).Ok? && XlsxKey(a).value <= XlsxKey(b).value
  {
    var sx := SortEntries(g.xlsxs);
    SortedMembers(g.xlsxs);
    var a, b := sx[i], sx[j];
    assert a in sx && b in sx;
    assert Arrange(g)[i] == a && Arrange(g)[j] == b;
    XlsxPairOrder(a, b);
  }

  // ----- the importer each file goes to -----

  /** A name contains a text only if it contains the text's first character. */
  lemma ContainsHead(s: string, sub: string)
    requires sub != [] && Contains(s, sub)
    ensures sub[0] in s
  {
    ContainsAt(s, sub);
    var i :| OccursAt(s, sub, i);
    assert s[i..i + |sub|][0] == s[i];
  }

  /** A name with 'xlsx' in it goes to the workbook importer; any other goes to
      the CSV importer or raises. */
  lemma JobKind(name: string)
    requires JobOf(name).Ok?
    ensures JobName(JobOf(name).value) == name
    ensures JobOf(name).value.XlsxJob? <==> Contains(name, "xlsx")
  {
  }

  /** `<prefix>_YYYYMMDD.csv` goes to the CSV importer stamped with the ISO form
      of its date. */
  lemma CsvNameJob(prefix: string, d: Date)
    requires ValidDate(d) && '_' !in prefix && 'x' !in prefix
    ensures var name := prefix + "_" + FormatCompact(d) + ".csv";
      JobOf(name) == Ok(CsvJob(name, FormatIso(d)))
  {
    var digits := FormatCompact(d);
    var name := prefix + "_" + digits + ".csv";
    assert name == prefix + "_" + (digits + ".csv");
    assert '_' !in digits + ".csv" && '.' !in digits && 'x' !in name by {
      assert forall i :: 0 <= i < |digits| ==> IsDigit(digits[i]);
    }
    if Contains(name, "xlsx") {
      ContainsHead(name, "xlsx");
    }
    SecondPieceOf(prefix, digits + ".csv");
    assert digits + ".csv" == digits + ['.'] + "csv";
    SplitAfter(digits, '.', "csv");
    CompactRoundTrip(d);
  }

  // ----- the order the files are imported in -----

  /** The names of the jobs, in order. */
  function JobNames(jobs: seq<Job>): (r: seq<string>)
    ensures |r| == |jobs|
  {
    if jobs == [] then [] else [JobName(jobs[0])] + JobNames(jobs[1..])
  }

  lemma {:induction false} JobNamesMatch(jobs: seq<Job>, files: seq<Entry>)
    requires |jobs| == |files|
    requires forall i :: 0 <= i < |files| ==> JobName(jobs[i]) == files[i].name
    ensures JobNames(jobs) == Names(files)
    decreases |files|
  {
    if files != [] {
      JobNamesMatch(jobs[1..], files[1..]);
    }
  }

  /** What a selection that goes through rests on: the two lists the key loop
      filled, and the files in the order they are imported. */
  lemma SelectionParts(listing: seq<string>, keyword: string) returns (g: Groups, jobs: seq<Job>)
    requires Selection(listing, keyword).Ok?
    ensures Classify(Filter(listing, keyword)) == Ok(g) && Selection(listing, keyword) == Ok(jobs)
    ensures multiset(Names(g.csvs)) + multiset(Names(g.xlsxs)) == multiset(Filter(listing, keyword))
    ensures |jobs| == |Arrange(g)| == |g.xlsxs| + |g.csvs|
    ensures forall i :: 0 <= i < |jobs| ==> JobName(jobs[i]) == Arrange(g)[i].name
    ensures WellGrouped(g) && |SortEntries(g.xlsxs)| == |g.xlsxs|
    ensures forall i :: 0 <= i < |g.xlsxs| ==> '_' !in JobName(jobs[i])
    ensures forall i :: |g.xlsxs| <= i < |jobs| ==> '_' in JobName(jobs[i])
  {
    var kept := Filter(listing, keyword);
    g := Classify(kept).value;
    jobs := Jobs(Arrange(g)).value;
    ClassifyGroups(kept);
    ArrangeGroups(g);
    JobsFollowFiles(Arrange(g));
    forall i | 0 <= i < |jobs|
      ensures JobName(jobs[i]) == Arrange(g)[i].name
    {
      JobNamed(Arrange(g)[i].name);
    }
    assert |SortEntries(g.xlsxs)| == |multiset(g.xlsxs)|;
  }

  /** The files imported are the kept names of the listing, each once. */
  lemma SelectionPermutes(listing: seq<string>, keyword: string)
    requires Selection(listing, keyword).Ok?
    ensures multiset(JobNames(Selection(listing, keyword).value)) == multiset(Filter(listing, keyword))
  {
    var g, jobs := SelectionParts(listing, keyword);
    var sx, sc := SortEntries(g.xlsxs), SortEntries(g.csvs);
    JobNamesMatch(jobs, sx + sc);
    NamesConcat(sx, sc);
    NamesMultiset(sx, g.xlsxs);
    NamesMultiset(sc, g.csvs);
  }

  /** Every name without '_' is imported before every name with '_'. */
  lemma SelectionWorkbooksFirst(listing: seq<string>, keyword: string)
    requires Selection(listing, keyword).Ok?
    ensures var jobs := Selection(listing, keyword).value;
      forall i, j :: 0 <= i < j < |jobs| && '_' in JobName(jobs[i]) ==> '_' in JobName(jobs[j])
  {
    var g, jobs := SelectionParts(listing, keyword);
  }

  /** Of two entries of `csvs` in order, the second's date is not the earlier. */
  lemma CsvPairOrder(a: Entry, b: Entry)
    requires CsvEntry(a) && CsvEntry(b) && EntryLe(a, b)
    ensures CsvKey(a.name).Ok? && CsvKey(b.name).Ok?
    ensures !DateLess(CsvKey(b.name).value, CsvKey(a.name).value)
  {
    var da, db := CsvKey(a.name).value, CsvKey(b.name).value;
    assert a.key == DateKey(da) && b.key == DateKey(db);
    DateKeyOrder(db, da);
  }

  /** Of two entries of `xlsxs` in order, the second's number is not the smaller. */
  lemma XlsxPairOrder(a: Entry, b: Entry)
    requires XlsxEntry(a) && XlsxEntry(b) && EntryLe(a, b)
    ensures XlsxKey(a.name).Ok? && XlsxKey(b.name).Ok?
    ensures XlsxKey(a.name).value <= XlsxKey(b.name).value
  {
  }

  /** Names with '_' are imported in the order of the date after their first '_'. */
  lemma SelectionByDate(listing: seq<string>, keyword: string)
    requires Selection(listing, keyword).Ok?
    ensures var jobs := Selection(listing, keyword).value;
      forall i, j :: 0 <= i < j < |jobs| && '_' in JobName(jobs[i]) && '_' in JobName(jobs[j]) ==>
        && CsvKey(JobName(jobs[i])).Ok? && CsvKey(JobName(jobs[j])).Ok?
        && !DateLess(CsvKey(JobName(jobs[j])).value, CsvKey(JobName(jobs[i])).value)
  {
    var g, jobs := SelectionParts(listing, keyword);
    forall i, j | 0 <= i < j < |jobs| && '_' in JobName(jobs[i]) && '_' in JobName(jobs[j])
      ensures CsvKey(JobName(jobs[i])).Ok? && CsvKey(JobName(jobs[j])).Ok?
      ensures !DateLess(CsvKey(JobName(jobs[j])).value, CsvKey(JobName(jobs[i])).value)
    {
      ArrangedByDate(g, i, j);
    }
  }

  /** Names without '_' are imported in the order of the number in their last
      nine characters. */
  lemma SelectionByNumber(listing: seq<string>, keyword: string)
    requires Selection(listing, keyword).Ok?
    ensures var jobs := Selection(listing, keyword).value;
      forall i, j :: 0 <= i < j < |jobs| && '_' !in JobName(jobs[i]) && '_' !in JobName(jobs[j]) ==>
        && XlsxKey(JobName(jobs[i])).Ok? && XlsxKey(JobName(jobs[j])).Ok?
        && XlsxKey(JobName(jobs[i])).value <= XlsxKey(JobName(jobs[j])).value
  {
    var g, jobs := SelectionParts(listing, keyword);
    forall i, j | 0 <= i < j < |jobs| && '_' !in JobName(jobs[i]) && '_' !in JobName(jobs[j])
      ensures XlsxKey(JobName(jobs[i])).Ok? && XlsxKey(JobName(jobs[j])).Ok?
      ensures XlsxKey(JobName(jobs[i])).value <= XlsxKey(JobName(jobs[j])).value
    {
      ArrangedByNumber(g, i, j);
    }
  }
}
