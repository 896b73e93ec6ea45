/** The two importers: `process_csv_bytestring` and `process_xlsx_bytestring` turn
    the rows of a vendor file into import-ready records, one dictionary per
    customer, keyed by the normalised column headers. */
module Ingest {
  import opened Wrappers
  import opened Strings
  import opened Calendar
  import opened Segments

  /** A dictionary value: text, a number, a spreadsheet timestamp (a date and the
      seconds into it), a date, or Python's None. */
  datatype Value = Null | Text(s: string) | Number(n: int) | Timestamp(date: ValidDay, seconds: nat) | DateValue(date: ValidDay)

  /** Python's date objects only hold days the calendar has. */
  type ValidDay = d: Date | ValidDate(d) witness Date(1900, 1, 1)

  type Row = map<string, Value>

  datatype ImportError =
    | MissingKey(key: string)   // KeyError on a dictionary lookup or `del`
    | BadDate(text: string)     // ValueError from the second strptime
    | NotATimestamp(row: nat)   // a spreadsheet date cell without `.date()`
    | NoHeaderRow               // IndexError on `data[0]`
    | HeaderNotText(col: nat)   // a header cell without `.replace`

  const LAST_ORDER_DATE: string := "last_order_date"
  const SEGMENT: string := "segment"
  const RECORD_CREATE_DATE: string := "record_create_date"
  const FILE_PARSE_DATE: string := "file_parse_date"

  /** The CSV importer reads `str()` of the file's bytes: line breaks appear there
      as the four characters backslash, r, backslash, n, and the UTF-8 byte order
      mark as the twelve characters of its escape sequence. */
  const LINE_BREAK: string := "\\r\\n"
  const BOM_TEXT: string := "\\xef\\xbb\\xbf"

  /** What the CSV importer strips from each header, in this order: the bytes
      literal's opening `b"` and the byte order mark are removed, spaces and
      hyphens become underscores. */
  const PARSE_OUT: seq<string> := ["b\"", " ", "-", BOM_TEXT]

  /** The six address columns dropped from wide CSV records, in deletion order. */
  const ADDRESS_KEYS: seq<string> := ["address_2", "address_1", "state", "post_code", "country", "city"]

  /** The `file_parse_date` stamped on every spreadsheet record. */
  const XLSX_PARSE_DATE: string := "1900-01-01"

  // ----- headers -----

  function Strip(h: string, pat: string): string
    requires |pat| > 0
  {
    if pat == " " || pat == "-" then ReplaceAll(h, pat, "_") else ReplaceAll(h, pat, "")
  }

  function StripAll(h: string, pats: seq<string>): string
    requires forall k :: 0 <= k < |pats| ==> |pats[k]| > 0
    decreases |pats|
  {
    if pats == [] then h else Strip(StripAll(h, pats[..|pats| - 1]), pats[|pats| - 1])
  }

  /** A CSV header after the strip loop and `.lower()`. */
  function CleanHeader(h: string): string
  {
    Lower(StripAll(h, PARSE_OUT))
  }

  /** A spreadsheet header: hyphens, then spaces, to underscores, then lower case. */
  function XlsxHeader(h: string): string
  {
    Lower(ReplaceAll(ReplaceAll(h, "-", "_"), " ", "_"))
  }

  predicate Normalised(h: string)
  {
    ' ' !in h && '-' !in h && forall i :: 0 <= i < |h| ==> !IsUpperAscii(h[i])
  }

  /** Lowering keeps a string free of spaces and hyphens and removes upper case. */
  lemma LowerNormalises(h: string)
    requires ' ' !in h && '-' !in h
    ensures Normalised(Lower(h))
  {
    LowerShape(h);
  }

  /** Replacing spaces, then hyphens, by underscores leaves neither. */
  lemma UnderscoresOnly(h: string)
    ensures var u := ReplaceAll(ReplaceAll(h, " ", "_"), "-", "_");
      ' ' !in u && '-' !in u
  {
    ReplaceCharAt(h, ' ', '_');
    var a := ReplaceAll(h, " ", "_");
    ReplaceCharAt(a, '-', '_');
  }

  /** A cleaned CSV header holds no space, no hyphen and no upper-case letter. */
  lemma CleanHeaderNormalised(h: string)
    ensures Normalised(CleanHeader(h))
  {
    var a := Strip(h, "b\"");
    var b := ReplaceAll(ReplaceAll(a, " ", "_"), "-", "_");
    UnderscoresOnly(a);
    assert StripAll(h, PARSE_OUT[..1]) == a by {
      assert PARSE_OUT[..1][..0] == [];
    }
    assert StripAll(h, PARSE_OUT[..2]) == ReplaceAll(a, " ", "_") by {
      assert PARSE_OUT[..2][..1] == PARSE_OUT[..1];
    }
    assert StripAll(h, PARSE_OUT[..3]) == b by {
      assert PARSE_OUT[..3][..2] == PARSE_OUT[..2];
    }
    var c := ReplaceAll(b, BOM_TEXT, "");
    assert StripAll(h, PARSE_OUT) == c by {
      assert PARSE_OUT[..|PARSE_OUT| - 1] == PARSE_OUT[..3];
    }
    ReplaceChars(b, BOM_TEXT, "");
    LowerNormalises(c);
  }

  /** So is a spreadsheet header. */
  lemma XlsxHeaderNormalised(h: string)
    ensures Normalised(XlsxHeader(h))
  {
    var a := ReplaceAll(h, "-", "_");
    ReplaceCharAt(h, '-', '_');
    ReplaceCharAt(a, ' ', '_');
    var b := ReplaceAll(a, " ", "_");
    LowerNormalises(b);
  }

  // ----- records -----

  /** `dict(zip(keys, values))` for lists of the same length: a key that repeats
      keeps its last value. */
  function Zip(keys: seq<string>, vals: seq<Value>): (m: Row)
    requires |keys| == |vals|
    ensures forall k :: k in m ==> m[k] in vals
    decreases |keys|
  {
    if keys == [] then map[]
    else
      var n := |keys| - 1;
      var m := Zip(keys[..n], vals[..n]);
      assert forall k :: k in m ==> m[k] in vals by {
        forall k | k in m ensures m[k] in vals {
          assert m[k] in vals[..n];
        }
      }
      m[keys[n] := vals[n]]
  }

  /** The dictionary's keys are the headers. */
  lemma {:induction false} ZipKeys(keys: seq<string>, vals: seq<Value>)
    requires |keys| == |vals|
    ensures forall k :: k in Zip(keys, vals) <==> k in keys
    decreases |keys|
  {
    if keys != [] {
      var n := |keys| - 1;
      ZipKeys(keys[..n], vals[..n]);
      assert keys == keys[..n] + [keys[n]];
    }
  }

  /** A header maps to the value at its last position. */
  lemma {:induction false} ZipLastWins(keys: seq<string>, vals: seq<Value>, i: nat)
    requires |keys| == |vals| && i < |keys|
    requires forall j :: i < j < |keys| ==> keys[j] != keys[i]
    ensures keys[i] in Zip(keys, vals) && Zip(keys, vals)[keys[i]] == vals[i]
    decreases |keys|
  {
    var n := |keys| - 1;
    if i < n {
      assert keys[n] != keys[i];
      assert keys[..n][i] == keys[i] && vals[..n][i] == vals[i];
      assert forall j :: i < j < n ==> keys[..n][j] == keys[j];
      ZipLastWins(keys[..n], vals[..n], i);
    }
  }

  function Texts(fields: seq<string>): (r: seq<Value>)
    ensures |r| == |fields|
    ensures forall v :: v in r ==> v.Text?
  {
    seq(|fields|, i requires 0 <= i < |fields| => Text(fields[i]))
  }

  /** `return_segment`'s answer as stored: the label, or None. */
  function SegmentValue(s: Option<Segment>): Value
  {
    match s
    case None => Null
    case Some(seg) => Text(Label(seg))
  }

  function TextOrNull(s: Option<string>): Value
  {
    match s
    case None => Null
    case Some(t) => Text(t)
  }

  /** The first strptime attempt, month/day/year; when it raises ValueError, the
      second, year-month-day. */
  function ReadOrderDate(text: string): (r: Option<Date>)
    ensures r.Some? ==> ValidDate(r.value)
  {
    match ParseUs(text)
    case Some(d) => Some(d)
    case None => ParseIso(text)
  }

  /** The `del record[...]` statements, in order: the first missing key raises. */
  function DeleteKeys(row: Row, keys: seq<string>): (r: Result<Row, ImportError>)
    decreases |keys|
  {
    if keys == [] then Ok(row)
    else if keys[0] !in row then Err(MissingKey(keys[0]))
    else DeleteKeys(row - {keys[0]}, keys[1..])
  }

  /** Deleting distinct keys succeeds exactly when every one is present, and then
      removes exactly those keys and keeps every other entry; otherwise the first
      absent key is reported. */
  lemma {:induction false} DeleteKeysSpec(row: Row, keys: seq<string>)
    requires forall i, j :: 0 <= i < j < |keys| ==> keys[i] != keys[j]
    ensures DeleteKeys(row, keys).Ok? <==> forall k :: k in keys ==> k in row
    ensures DeleteKeys(row, keys).Ok? ==>
      && (forall k :: k in DeleteKeys(row, keys).value <==> k in row && k !in keys)
      && (forall k :: k in DeleteKeys(row, keys).value ==> DeleteKeys(row, keys).value[k] == row[k])
    ensures DeleteKeys(row, keys).Err? ==>
      exists i :: 0 <= i < |keys| && keys[i] !in row && DeleteKeys(row, keys).error == MissingKey(keys[i])
        && forall j :: 0 <= j < i ==> keys[j] in row
    decreases |keys|
  {
    if keys != [] && keys[0] in row {
      var rest := row - {keys[0]};
      DeleteKeysSpec(rest, keys[1..]);
      assert forall k :: k in keys <==> k == keys[0] || k in keys[1..];
      if DeleteKeys(rest, keys[1..]).Err? {
        var i :| 0 <= i < |keys[1..]| && keys[1..][i] !in rest
          && DeleteKeys(rest, keys[1..]).error == MissingKey(keys[1..][i])
          && forall j :: 0 <= j < i ==> keys[1..][j] in rest;
        assert keys[i + 1] == keys[1..][i] && keys[i + 1] != keys[0];
        assert forall j :: 0 <= j < i + 1 ==> keys[j] in row by {
          forall j | 0 <= j < i + 1 ensures keys[j] in row {
            if j > 0 {
              assert keys[j] == keys[1..][j - 1];
            }
          }
        }
      }
    } else if keys != [] {
      assert keys[0] in keys;
    }
  }

  /** The address columns are six different names. */
  lemma AddressKeysDistinct()
    ensures forall i, j :: 0 <= i < j < |ADDRESS_KEYS| ==> ADDRESS_KEYS[i] != ADDRESS_KEYS[j]
  {
  }

  /** The four fields every CSV record is stamped with. */
  function StampCsv(row: Row, order: Date, fileDate: Option<string>, today: Date): Row
    requires ValidDate(order) && ValidDate(today)
  {
    row[LAST_ORDER_DATE := Text(FormatIso(order))]
       [SEGMENT := SegmentValue(SegmentOfDate(order, today))]
       [RECORD_CREATE_DATE := Text(FormatIso(today))]
       [FILE_PARSE_DATE := TextOrNull(fileDate)]
  }

  /** One CSV line whose field count matches the headers, as the importer leaves
      it: the order date rewritten in ISO form, segment and dates stamped, and
      the address columns dropped from a record of more than eleven keys. */
  function CsvRecord(headers: seq<string>, fields: seq<string>, fileDate: Option<string>, today: Date)
    : Result<Row, ImportError>
    requires |headers| == |fields| && ValidDate(today)
  {
    var row := Zip(headers, Texts(fields));
    if LAST_ORDER_DATE !in row then Err(MissingKey(LAST_ORDER_DATE))
    else
      assert row[LAST_ORDER_DATE] in Texts(fields);
      var text := row[LAST_ORDER_DATE].s;
      match ReadOrderDate(text)
      case None => Err(BadDate(text))
      case Some(order) => StampAndStrip(row, order, fileDate, today)
  }

  /** The end of a CSV line's processing once its date is read: stamp it, then
      drop the address columns when the stamped record has more than eleven keys. */
  function StampAndStrip(row: Row, order: Date, fileDate: Option<string>, today: Date)
    : Result<Row, ImportError>
    requires ValidDate(order) && ValidDate(today)
  {
    var stamped := StampCsv(row, order, fileDate, today);
    if |stamped| > 11 then DeleteKeys(stamped, ADDRESS_KEYS) else Ok(stamped)
  }

  /** The records of the lines after the header, in order; a line with another
      field count is skipped; the first failing line fails the whole file. */
  function CsvRecords(headers: seq<string>, items: seq<string>, fileDate: Option<string>, today: Date)
    : Result<seq<Row>, ImportError>
    requires ValidDate(today)
    decreases |items|
  {
    if items == [] then Ok([])
    else
      var n := |items| - 1;
      match CsvRecords(headers, items[..n], fileDate, today)
      case Err(e) => Err(e)
      case Ok(store) =>
        var fields := Split(items[n], ",");
        if |fields| != |headers| then Ok(store)
        else match CsvRecord(headers, fields, fileDate, today)
          case Err(e) => Err(e)
          case Ok(record) => Ok(store + [record])
  }

  /** `process_csv_bytestring` on the text of the file, with the headers taken
      from its first line. */
  function CsvImport(text: string, fileDate: Option<string>, today: Date): (r: Result<seq<Row>, ImportError>)
    requires ValidDate(today)
    ensures r.Ok? ==> |r.value| < |Split(text, LINE_BREAK)|
    ensures r.Ok? ==> forall k :: 0 <= k < |r.value| ==>
      exists order :: ValidDate(order) && CsvStamped(r.value[k], order, fileDate, today)
  {
    var lines := Split(text, LINE_BREAK);
    var names := Split(lines[0], ",");
    var headers := seq(|names|, i requires 0 <= i < |names| => CleanHeader(names[i]));
    CsvRecordsStamped(headers, lines[1..], fileDate, today);
    CsvRecords(headers, lines[1..], fileDate, today)
  }

  // ----- what a CSV record holds -----

  /** The four stamped fields of a CSV record. */
  predicate CsvStamped(record: Row, order: Date, fileDate: Option<string>, today: Date)
    requires ValidDate(order) && ValidDate(today)
  {
    && LAST_ORDER_DATE in record && record[LAST_ORDER_DATE] == Text(FormatIso(order))
    && SEGMENT in record && record[SEGMENT] == SegmentValue(SegmentOfDate(order, today))
    && RECORD_CREATE_DATE in record && record[RECORD_CREATE_DATE] == Text(FormatIso(today))
    && FILE_PARSE_DATE in record && record[FILE_PARSE_DATE] == TextOrNull(fileDate)
  }

  /** The order date text a CSV line holds, when it has that column. */
  function OrderText(headers: seq<string>, fields: seq<string>): Option<string>
    requires |headers| == |fields|
  {
    var row := Zip(headers, Texts(fields));
    if LAST_ORDER_DATE !in row then None
    else
      assert row[LAST_ORDER_DATE] in Texts(fields);
      Some(row[LAST_ORDER_DATE].s)
  }

  lemma StampKeysKept()
    ensures LAST_ORDER_DATE !in ADDRESS_KEYS && SEGMENT !in ADDRESS_KEYS
    ensures RECORD_CREATE_DATE !in ADDRESS_KEYS && FILE_PARSE_DATE !in ADDRESS_KEYS
  {
  }

  /** Stamping survives the address stripping: a record that comes out holds the
      four stamped fields. */
  lemma StampAndStripFields(row: Row, order: Date, fileDate: Option<string>, today: Date)
    requires ValidDate(order) && ValidDate(today)
    requires StampAndStrip(row, order, fileDate, today).Ok?
    ensures CsvStamped(StampAndStrip(row, order, fileDate, today).value, order, fileDate, today)
  {
    var stamped := StampCsv(row, order, fileDate, today);
    assert CsvStamped(stamped, order, fileDate, today);
    if |stamped| > 11 {
      AddressKeysDistinct();
      DeleteKeysSpec(stamped, ADDRESS_KEYS);
      StampKeysKept();
    }
  }

  /** A stamped record of more than eleven keys loses exactly the six address
      columns, or fails on the first one it lacks; a narrower one keeps all its keys. */
  lemma StampAndStripKeys(row: Row, order: Date, fileDate: Option<string>, today: Date)
    requires ValidDate(order) && ValidDate(today)
    ensures var stamped := StampCsv(row, order, fileDate, today);
      var r := StampAndStrip(row, order, fileDate, today);
      && (|stamped| > 11 ==>
            && (r.Err? <==> exists k :: k in ADDRESS_KEYS && k !in stamped)
            && (r.Ok? ==> (forall k :: k in r.value <==> k in stamped && k !in ADDRESS_KEYS)
                          && (forall k :: k in r.value ==> r.value[k] == stamped[k])))
      && (|stamped| <= 11 ==> r == Ok(stamped))
  {
    var stamped := StampCsv(row, order, fileDate, today);
    if |stamped| > 11 {
      AddressKeysDistinct();
      DeleteKeysSpec(stamped, ADDRESS_KEYS);
    }
  }

  /** A stored CSV record holds its order date as ISO text of the day the line
      held, that day's bucket as of today as its segment, today as its creation
      date and the file's date; the line's date was readable. */
  lemma CsvRecordFields(headers: seq<string>, fields: seq<string>, fileDate: Option<string>, today: Date)
    requires |headers| == |fields| && ValidDate(today)
    requires CsvRecord(headers, fields, fileDate, today).Ok?
    ensures OrderText(headers, fields).Some?
    ensures ReadOrderDate(OrderText(headers, fields).value).Some?
    ensures CsvStamped(CsvRecord(headers, fields, fileDate, today).value,
                       ReadOrderDate(OrderText(headers, fields).value).value, fileDate, today)
  {
    var row := Zip(headers, Texts(fields));
    assert row[LAST_ORDER_DATE] in Texts(fields);
    var order := ReadOrderDate(row[LAST_ORDER_DATE].s).value;
    assert CsvRecord(headers, fields, fileDate, today) == StampAndStrip(row, order, fileDate, today);
    StampAndStripFields(row, order, fileDate, today);
  }

  /** A record of more than eleven keys loses exactly the six address columns;
      a narrower one keeps all its keys. */
  lemma CsvAddressStripping(headers: seq<string>, fields: seq<string>, fileDate: Option<string>, today: Date)
    requires |headers| == |fields| && ValidDate(today)
    requires CsvRecord(headers, fields, fileDate, today).Ok?
    ensures OrderText(headers, fields).Some? && ReadOrderDate(OrderText(headers, fields).value).Some?
    ensures var stamped := StampCsv(Zip(headers, Texts(fields)),
                                    ReadOrderDate(OrderText(headers, fields).value).value, fileDate, today);
      var record := CsvRecord(headers, fields, fileDate, today).value;
      && (|stamped| > 11 ==>
            && (forall k :: k in record <==> k in stamped && k !in ADDRESS_KEYS)
            && (forall k :: k in record ==> record[k] == stamped[k]))
      && (|stamped| <= 11 ==> record == stamped)
  {
    var row := Zip(headers, Texts(fields));
    assert row[LAST_ORDER_DATE] in Texts(fields);
    var order := ReadOrderDate(row[LAST_ORDER_DATE].s).value;
    assert CsvRecord(headers, fields, fileDate, today) == StampAndStrip(row, order, fileDate, today);
    StampAndStripKeys(row, order, fileDate, today);
  }

  /** A wide record missing an address column fails the whole line. */
  lemma CsvMissingAddress(headers: seq<string>, fields: seq<string>, fileDate: Option<string>, today: Date)
    requires |headers| == |fields| && ValidDate(today)
    requires OrderText(headers, fields).Some? && ReadOrderDate(OrderText(headers, fields).value).Some?
    requires var stamped := StampCsv(Zip(headers, Texts(fields)),
                                     ReadOrderDate(OrderText(headers, fields).value).value, fileDate, today);
      |stamped| > 11 && exists k :: k in ADDRESS_KEYS && k !in stamped
    ensures CsvRecord(headers, fields, fileDate, today).Err?
  {
    var row := Zip(headers, Texts(fields));
    assert row[LAST_ORDER_DATE] in Texts(fields);
    var order := ReadOrderDate(row[LAST_ORDER_DATE].s).value;
    assert CsvRecord(headers, fields, fileDate, today) == StampAndStrip(row, order, fileDate, today);
    StampAndStripKeys(row, order, fileDate, today);
  }

  /** The date rewrite: month/day/year text becomes ISO text of the same day, and
      ISO text is kept as it is. */
  lemma OrderDateRewrite(d: Date)
    requires ValidDate(d)
    ensures ReadOrderDate(FormatUs(d)) == Some(d)
    ensures ReadOrderDate(FormatIso(d)) == Some(d)
  {
    UsRoundTrip(d);
    UsRejectsIso(d);
    IsoRoundTrip(d);
  }

  /** Kept lines keep their order and there is one record per line whose field
      count matches the headers. */
  function Matching(headers: seq<string>, items: seq<string>): (r: seq<string>)
    ensures |r| <= |items|
    decreases |items|
  {
    if items == [] then []
    else
      var n := |items| - 1;
      Matching(headers, items[..n]) + (if |Split(items[n], ",")| == |headers| then [items[n]] else [])
  }

  lemma {:induction false} CsvRecordsCount(headers: seq<string>, items: seq<string>, fileDate: Option<string>, today: Date)
    requires ValidDate(today)
    requires CsvRecords(headers, items, fileDate, today).Ok?
    ensures var store := CsvRecords(headers, items, fileDate, today).value;
      && |store| == |Matching(headers, items)|
      && forall k :: 0 <= k < |store| ==>
           var fields := Split(Matching(headers, items)[k], ",");
           |fields| == |headers| && CsvRecord(headers, fields, fileDate, today) == Ok(store[k])
    decreases |items|
  {
    if items != [] {
      var n := |items| - 1;
      CsvRecordsCount(headers, items[..n], fileDate, today);
    }
  }

  /** A failing line fails the whole file, whatever follows it. */
  /** Each stored CSV record carries the four stamps, of the order date its line
      held; there are no more records than lines. */
  lemma CsvRecordsStamped(headers: seq<string>, items: seq<string>, fileDate: Option<string>, today: Date)
    requires ValidDate(today)
    ensures CsvRecords(headers, items, fileDate, today).Ok? ==>
      var store := CsvRecords(headers, items, fileDate, today).value;
      && |store| <= |items|
      && forall k :: 0 <= k < |store| ==>
           exists order :: ValidDate(order) && CsvStamped(store[k], order, fileDate, today)
  {
    if CsvRecords(headers, items, fileDate, today).Ok? {
      var store := CsvRecords(headers, items, fileDate, today).value;
      CsvRecordsCount(headers, items, fileDate, today);
      forall k | 0 <= k < |store|
        ensures exists order :: ValidDate(order) && CsvStamped(store[k], order, fileDate, today)
      {
        var fields := Split(Matching(headers, items)[k], ",");
        CsvRecordFields(headers, fields, fileDate, today);
        var order := ReadOrderDate(OrderText(headers, fields).value).value;
        assert CsvStamped(store[k], order, fileDate, today);
      }
    }
  }

  lemma {:induction false} CsvRecordsFailFast(headers: seq<string>, items: seq<string>, j: nat,
                                              fileDate: Option<string>, today: Date)
    requires ValidDate(today) && j <= |items|
    requires CsvRecords(headers, items[..j], fileDate, today).Err?
    ensures CsvRecords(headers, items, fileDate, today) == CsvRecords(headers, items[..j], fileDate, today)
    decreases |items| - j
  {
    if j < |items| {
      assert items[..j + 1][..j] == items[..j];
      CsvRecordsFailFast(headers, items, j + 1, fileDate, today);
    } else {
      assert items[..j] == items;
    }
  }

  // ----- the CSV importer -----

  /** The header loop: each header split off the first line, run through the
      strip loop, lower-cased. */
  method CsvHeaders(line: string) returns (headers: seq<string>)
    ensures |headers| == |Split(line, ",")|
    ensures forall i :: 0 <= i < |headers| ==> headers[i] == CleanHeader(Split(line, ",")[i])
    ensures forall i :: 0 <= i < |headers| ==> Normalised(headers[i])
  {
    var names := Split(line, ",");
    headers := [];
    for i := 0 to |names|
      invariant |headers| == i
      invariant forall k :: 0 <= k < i ==> headers[k] == CleanHeader(names[k])
      invariant forall k :: 0 <= k < i ==> Normalised(headers[k])
    {
      var parsed := names[i];
      for j := 0 to |PARSE_OUT|
        invariant parsed == StripAll(names[i], PARSE_OUT[..j])
      {
        assert PARSE_OUT[..j + 1][..j] == PARSE_OUT[..j];
        var pat := PARSE_OUT[j];
        if pat == " " || pat == "-" {
          parsed := ReplaceAll(parsed, pat, "_");
        } else {
          parsed := ReplaceAll(parsed, pat, "");
        }
      }
      assert PARSE_OUT[..|PARSE_OUT|] == PARSE_OUT;
      CleanHeaderNormalised(names[i]);
      headers := headers + [Lower(parsed)];
    }
  }

  /** The body of the row loop for a line of the right width: build the
      dictionary, rewrite the order date, stamp the fields, drop the address
      columns. */
  method MakeCsvRecord(headers: seq<string>, fields: seq<string>, fileDate: Option<string>, today: Date)
    returns (r: Result<Row, ImportError>)
    requires |headers| == |fields| && ValidDate(today)
    ensures r == CsvRecord(headers, fields, fileDate, today)
  {
    var record := Zip(headers, Texts(fields));
    if LAST_ORDER_DATE !in record {
      return Err(MissingKey(LAST_ORDER_DATE));
    }
    assert record[LAST_ORDER_DATE] in Texts(fields);
    var text := record[LAST_ORDER_DATE].s;
    var order: Date;
    var us := ParseUs(text);
    if us.Some? {
      order := us.value;
    } else {
      var iso := ParseIso(text);
      if iso.None? {
        return Err(BadDate(text));
      }
      order := iso.value;
    }
    record := record[LAST_ORDER_DATE := Text(FormatIso(order))];
    record := record[SEGMENT := SegmentValue(SegmentOfDate(order, today))];
    record := record[RECORD_CREATE_DATE := Text(FormatIso(today))];
    record := record[FILE_PARSE_DATE := TextOrNull(fileDate)];
    r := StripAddress(record);
  }

  /** The `del record[...]` statements for a record of more than eleven keys, one
      address column at a time; the first one missing raises. */
  method StripAddress(stamped: Row) returns (r: Result<Row, ImportError>)
    ensures r == if |stamped| > 11 then DeleteKeys(stamped, ADDRESS_KEYS) else Ok(stamped)
  {
    var record := stamped;
    if |record| > 11 {
      for j := 0 to |ADDRESS_KEYS|
        invariant DeleteKeys(stamped, ADDRESS_KEYS) == DeleteKeys(record, ADDRESS_KEYS[j..])
      {
        var key := ADDRESS_KEYS[j];
        assert ADDRESS_KEYS[j..][1..] == ADDRESS_KEYS[j + 1..];
        if key !in record {
          return Err(MissingKey(key));
        }
        record := record - {key};
      }
    }
    r := Ok(record);
  }

  /** `process_csv_bytestring(file, file_date)`, from the text of the file:
      split into lines, headers from the first, one record per matching line. */
  method ProcessCsv(text: string, fileDate: Option<string>, today: Date)
    returns (r: Result<seq<Row>, ImportError>)
    requires ValidDate(today)
    ensures r == CsvImport(text, fileDate, today)
  {
    var lines := Split(text, LINE_BREAK);
    var headers := CsvHeaders(lines[0]);
    ghost var names := Split(lines[0], ",");
    assert headers == seq(|names|, i requires 0 <= i < |names| => CleanHeader(names[i]));
    r := CsvLines(headers, lines[1..], fileDate, today);
  }

  /** The line loop of `process_csv_bytestring`, over the lines below the header. */
  method CsvLines(headers: seq<string>, items: seq<string>, fileDate: Option<string>, today: Date)
    returns (r: Result<seq<Row>, ImportError>)
    requires ValidDate(today)
    ensures r == CsvRecords(headers, items, fileDate, today)
  {
    var store: seq<Row> := [];
    for k := 0 to |items|
      invariant CsvRecords(headers, items[..k], fileDate, today) == Ok(store)
    {
      assert items[..k + 1][..k] == items[..k];
      var fields := Split(items[k], ",");
      if |fields| == |headers| {
        var record := MakeCsvRecord(headers, fields, fileDate, today);
        if record.Err? {
          CsvRecordsFailFast(headers, items, k + 1, fileDate, today);
          return Err(record.error);
        }
        store := store + [record.value];
      }
    }
    assert items[..|items|] == items;
    r := Ok(store);
  }

  // ----- the spreadsheet importer -----

  /** The header list comprehension: every header cell must be text. */
  function XlsxHeaders(cells: seq<Value>): (r: Result<seq<string>, ImportError>)
    ensures r.Ok? ==> (|r.value| == |cells|
      && forall i :: 0 <= i < |cells| ==> cells[i].Text? && r.value[i] == XlsxHeader(cells[i].s))
    ensures r.Err? <==> exists i :: 0 <= i < |cells| && !cells[i].Text?
    decreases |cells|
  {
    if cells == [] then Ok([])
    else
      var n := |cells| - 1;
      match XlsxHeaders(cells[..n])
      case Err(e) =>
        assert exists i :: 0 <= i < |cells| && !cells[i].Text? by {
          var i :| 0 <= i < n && !cells[..n][i].Text?;
          assert cells[i] == cells[..n][i];
        }
        Err(e)
      case Ok(hs) =>
        if cells[n].Text? then Ok(hs + [XlsxHeader(cells[n].s)])
        else Err(HeaderNotText(n))
  }

  /** One spreadsheet row, numbered `index`: `None` when its order date is empty
      (the row is skipped); otherwise the record, with the timestamp reduced to
      its date and segment and dates stamped. `zip` stops at the shorter of the
      header and the row. */
  function XlsxRecord(headers: seq<string>, cells: seq<Value>, index: nat, today: Date)
    : Result<Option<Row>, ImportError>
    requires ValidDate(today)
  {
    var m := if |headers| <= |cells| then |headers| else |cells|;
    var row := Zip(headers[..m], cells[..m]);
    if LAST_ORDER_DATE !in row then Err(MissingKey(LAST_ORDER_DATE))
    else match row[LAST_ORDER_DATE]
      case Null => Ok(None)
      case Timestamp(d, _) =>
        Ok(Some(row[LAST_ORDER_DATE := DateValue(d)]
                   [SEGMENT := SegmentValue(SegmentOfDate(d, today))]
                   [RECORD_CREATE_DATE := DateValue(today)]
                   [FILE_PARSE_DATE := Text(XLSX_PARSE_DATE)]))
      case _ => Err(NotATimestamp(index))
  }

  function XlsxRecords(headers: seq<string>, rows: seq<seq<Value>>, today: Date): Result<seq<Row>, ImportError>
    requires ValidDate(today)
    decreases |rows|
  {
    if rows == [] then Ok([])
    else
      var n := |rows| - 1;
      match XlsxRecords(headers, rows[..n], today)
      case Err(e) => Err(e)
      case Ok(store) =>
        match XlsxRecord(headers, rows[n], n, today)
        case Err(e) => Err(e)
        case Ok(None) => Ok(store)
        case Ok(Some(record)) => Ok(store + [record])
  }

  function XlsxImport(data: seq<seq<Value>>, today: Date): (r: Result<seq<Row>, ImportError>)
    requires ValidDate(today)
    ensures data == [] ==> r == Err(NoHeaderRow)
    ensures r.Ok? ==> |r.value| < |data|
    ensures r.Ok? ==> forall k :: 0 <= k < |r.value| ==> XlsxStamped(r.value[k], today)
  {
    if data == [] then Err(NoHeaderRow)
    else match XlsxHeaders(data[0])
      case Err(e) => Err(e)
      case Ok(headers) =>
        var r := XlsxRecords(headers, data[1..], today);
        if r.Ok? then XlsxRecordsStamped(headers, data[1..], today); r else r
  }

  lemma {:induction false} XlsxRecordsFailFast(headers: seq<string>, rows: seq<seq<Value>>, j: nat, today: Date)
    requires ValidDate(today) && j <= |rows|
    requires XlsxRecords(headers, rows[..j], today).Err?
    ensures XlsxRecords(headers, rows, today) == XlsxRecords(headers, rows[..j], today)
    decreases |rows| - j
  {
    if j < |rows| {
      assert rows[..j + 1][..j] == rows[..j];
      XlsxRecordsFailFast(headers, rows, j + 1, today);
    } else {
      assert rows[..j] == rows;
    }
  }

  /** The body of the row loop: build the dictionary, skip a row without an
      order date, reduce the timestamp to its date and stamp the fields. */
  method MakeXlsxRecord(headers: seq<string>, cells: seq<Value>, index: nat, today: Date)
    returns (r: Result<Option<Row>, ImportError>)
    requires ValidDate(today)
    ensures r == XlsxRecord(headers, cells, index, today)
  {
    var m := if |headers| <= |cells| then |headers| else |cells|;
    var record := Zip(headers[..m], cells[..m]);
    if LAST_ORDER_DATE !in record {
      return Err(MissingKey(LAST_ORDER_DATE));
    }
    var cell := record[LAST_ORDER_DATE];
    if cell.Null? {
      return Ok(None);
    }
    if !cell.Timestamp? {
      return Err(NotATimestamp(index));
    }
    var order := cell.date;
    record := record[LAST_ORDER_DATE := DateValue(order)];
    record := record[SEGMENT := SegmentValue(SegmentOfDate(order, today))];
    record := record[RECORD_CREATE_DATE := DateValue(today)];
    record := record[FILE_PARSE_DATE := Text(XLSX_PARSE_DATE)];
    r := Ok(Some(record));
  }

  /** `process_xlsx_bytestring`, from the cell values of `Sheet1`, row by row. */
  /** The row loop of `process_xlsx_bytestring`, over the rows below the header. */
  method XlsxRows(headers: seq<string>, rows: seq<seq<Value>>, today: Date) returns (r: Result<seq<Row>, ImportError>)
    requires ValidDate(today)
    ensures r == XlsxRecords(headers, rows, today)
  {
    var store: seq<Row> := [];
    for k := 0 to |rows|
      invariant XlsxRecords(headers, rows[..k], today) == Ok(store)
    {
      assert rows[..k + 1][..k] == rows[..k];
      var record := MakeXlsxRecord(headers, rows[k], k, today);
      if record.Err? {
        XlsxRecordsFailFast(headers, rows, k + 1, today);
        return Err(record.error);
      }
      if record.value.Some? {
        store := store + [record.value.value];
      }
    }
    assert rows[..|rows|] == rows;
    r := Ok(store);
  }

  method ProcessXlsx(data: seq<seq<Value>>, today: Date) returns (r: Result<seq<Row>, ImportError>)
    requires ValidDate(today)
    ensures r == XlsxImport(data, today)
  {
    if |data| == 0 {
      return Err(NoHeaderRow);
    }
    var hs := XlsxHeaders(data[0]);
    if hs.Err? {
      return Err(hs.error);
    }
    r := XlsxRows(hs.value, data[1..], today);
  }

  // ----- what the spreadsheet importer keeps -----

  /** The rows whose order date is present, in order. */
  function Dated(headers: seq<string>, rows: seq<seq<Value>>, today: Date): (r: seq<nat>)
    requires ValidDate(today)
    ensures forall k :: 0 <= k < |r| ==> r[k] < |rows|
    ensures forall k, l :: 0 <= k < l < |r| ==> r[k] < r[l]
    ensures |r| <= |rows|
    decreases |rows|
  {
    if rows == [] then []
    else
      var n := |rows| - 1;
      Dated(headers, rows[..n], today)
        + (match XlsxRecord(headers, rows[n], n, today) case Ok(Some(_)) => [n] case _ => [])
  }

  /** The fields the spreadsheet importer stamps. */
  predicate XlsxStamped(record: Row, today: Date)
    requires ValidDate(today)
  {
    && FILE_PARSE_DATE in record && record[FILE_PARSE_DATE] == Text(XLSX_PARSE_DATE)
    && RECORD_CREATE_DATE in record && record[RECORD_CREATE_DATE] == DateValue(today)
    && LAST_ORDER_DATE in record && record[LAST_ORDER_DATE].DateValue?
    && ValidDate(record[LAST_ORDER_DATE].date)
    && SEGMENT in record && record[SEGMENT] == SegmentValue(SegmentOfDate(record[LAST_ORDER_DATE].date, today))
  }

  /** Every stored spreadsheet record carries the file date 1900-01-01, today's
      date as its creation date, and the bucket of its order date; there is one
      per row with an order date, in order. */
  lemma {:induction false} XlsxRecordsStamped(headers: seq<string>, rows: seq<seq<Value>>, today: Date)
    requires ValidDate(today)
    requires XlsxRecords(headers, rows, today).Ok?
    ensures var store := XlsxRecords(headers, rows, today).value;
      var dated := Dated(headers, rows, today);
      && |store| == |dated|
      && (forall k :: 0 <= k < |store| ==> XlsxStamped(store[k], today))
      && (forall k :: 0 <= k < |store| ==>
            XlsxRecord(headers, rows[dated[k]], dated[k], today) == Ok(Some(store[k])))
    decreases |rows|
  {
    if rows != [] {
      var n := |rows| - 1;
      XlsxRecordsStamped(headers, rows[..n], today);
      var dated := Dated(headers, rows[..n], today);
      forall k | 0 <= k < |dated|
        ensures rows[..n][dated[k]] == rows[dated[k]]
      {
      }
    }
  }

  /** A row is skipped exactly when its order date cell is empty. */
  lemma XlsxSkipsEmptyDates(headers: seq<string>, cells: seq<Value>, index: nat, today: Date)
    requires ValidDate(today)
    requires XlsxRecord(headers, cells, index, today).Ok?
    ensures var m := if |headers| <= |cells| then |headers| else |cells|;
      var row := Zip(headers[..m], cells[..m]);
      XlsxRecord(headers, cells, index, today).value.None? <==> row[LAST_ORDER_DATE] == Null
  {
  }
}
