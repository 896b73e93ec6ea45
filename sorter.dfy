/** `Sorter`: six user lists filled from the customer table. The add lists are
    `ca`, `la`, `ela` (current, lapsed, extra lapsed), the delete lists `cad`,
    `lad`, `elad`. Each pass resets the lists it owns and appends to them while
    walking the table in row order; the incremental pass also rewrites segments. */
module Sorting {
  import opened Wrappers
  import opened Segments
  import opened Customers
  import opened Passes

  class Sorter {
    const customers: Table
    var ca: seq<Email>
    var la: seq<Email>
    var ela: seq<Email>
    var cad: seq<Email>
    var lad: seq<Email>
    var elad: seq<Email>

    /** `Sorter(table)`: every list starts empty. */
    constructor (customers: Table)
      ensures this.customers == customers
      ensures ca == [] && la == [] && ela == [] && cad == [] && lad == [] && elad == []
    {
      this.customers := customers;
      ca, la, ela := [], [], [];
      cad, lad, elad := [], [], [];
    }

    /** `_generate_pushes`. With `initial`, every record goes to the add list of its
        stored segment. Otherwise the current add list becomes the records carrying
        the newest `file_parse_date`; on an empty table that lookup raises, after the
        add lists were already reset. The delete lists are not touched. */
    method GeneratePushes(initial: bool) returns (r: Outcome<SortError>)
      modifies this
      ensures cad == old(cad) && lad == old(lad) && elad == old(elad)
      ensures initial ==>
        && r == Pass
        && ca == EmailsWithSegment(customers.rows, CURRENT)
        && la == EmailsWithSegment(customers.rows, LAPSED)
        && ela == EmailsWithSegment(customers.rows, EXTRA_LAPSED)
      ensures !initial ==>
        && la == [] && ela == []
        && match Arrivals(customers.rows)
           case Err(e) => r == Fail(e) && ca == []
           case Ok(arrivals) => r == Pass && ca == arrivals
    {
      ca, la, ela := [], [], [];
      var rows := customers.rows;
      if initial {
        var i := 0;
        while i < |rows|
          invariant 0 <= i <= |rows|
          invariant ca == EmailsWithSegment(rows[..i], CURRENT)
          invariant la == EmailsWithSegment(rows[..i], LAPSED)
          invariant ela == EmailsWithSegment(rows[..i], EXTRA_LAPSED)
          invariant cad == old(cad) && lad == old(lad) && elad == old(elad)
        {
          var record := rows[i];
          assert rows[..i + 1][..i] == rows[..i];
          if record.segment == Some(CURRENT) {
            ca := ca + [record.email];
          }
          if record.segment == Some(LAPSED) {
            la := la + [record.email];
          }
          if record.segment == Some(EXTRA_LAPSED) {
            ela := ela + [record.email];
          }
          i := i + 1;
        }
        assert rows[..i] == rows;
        r := Pass;
      } else {
        if rows == [] {
          return Fail(EmptyTable);
        }
        var newest := NewestStamp(rows);
        var i := 0;
        while i < |rows|
          invariant 0 <= i <= |rows|
          invariant ca == EmailsStamped(rows[..i], newest)
          invariant la == [] && ela == []
          invariant cad == old(cad) && lad == old(lad) && elad == old(elad)
        {
          var record := rows[i];
          assert rows[..i + 1][..i] == rows[..i];
          if record.fileParseDate == newest {
            ca := ca + [record.email];
          }
          i := i + 1;
        }
        assert rows[..i] == rows;
        r := Pass;
      }
    }

    /** `_generate_deletes`: walks the table; a record whose bucket moved one step
        forward is put on the remove list of its old bucket and the add list of its
        new one, and its segment is rewritten and saved. A date strptime cannot read
        stops the walk with the updates saved so far kept. The current add list is
        not touched and the extra-lapsed remove list is never filled. */
    method GenerateDeletes(today: int) returns (r: Outcome<SortError>)
      requires customers.Valid()
      modifies this, customers
      ensures customers.Valid()
      ensures ca == old(ca)
      ensures var s := SweepOf(old(customers.rows), today);
        && customers.rows == s.rows
        && cad == s.cad && la == s.cad
        && lad == s.lad && ela == s.lad
        && elad == []
        && (r.Fail? <==> s.stoppedAt.Some?)
        && (r.Fail? ==> r.error == BadOrderDate(s.stoppedAt.value))
    {
      la, ela := [], [];
      cad, lad, elad := [], [], [];
      ghost var original := customers.rows;
      var i := 0;
      while i < |customers.rows|
        invariant customers.Valid()
        invariant |customers.rows| == |original|
        invariant 0 <= i <= |original|
        invariant customers.rows[i..] == original[i..]
        invariant SweepOf(original[..i], today) == Sweep(customers.rows[..i], cad, lad, None)
        invariant la == cad && ela == lad && elad == []
        invariant ca == old(ca)
      {
        var stop := Visit(i, today, original);
        if stop {
          return Fail(BadOrderDate(i));
        }
        i := i + 1;
      }
      assert original[..i] == original && customers.rows[..i] == customers.rows;
      r := Pass;
    }

    /** One step of the sweep: read the order date of row `i`; if strptime cannot
        read it the walk stops here with nothing changed, otherwise the row is
        reclassified. Either way the state agrees with the sweep function. */
    method Visit(i: nat, today: int, ghost original: seq<Customer>) returns (stop: bool)
      requires customers.Valid() && la == cad && ela == lad
      requires |customers.rows| == |original| && i < |original|
      requires customers.rows[i..] == original[i..]
      requires SweepOf(original[..i], today) == Sweep(customers.rows[..i], cad, lad, None)
      modifies this, customers
      ensures customers.Valid() && la == cad && ela == lad
      ensures ca == old(ca) && elad == old(elad)
      ensures |customers.rows| == |original|
      ensures stop ==> SweepOf(original, today) == Sweep(customers.rows, cad, lad, Some(i))
      ensures !stop ==>
        && customers.rows[i + 1..] == original[i + 1..]
        && SweepOf(original[..i + 1], today) == Sweep(customers.rows[..i + 1], cad, lad, None)
    {
      var record := customers.rows[i];
      assert record == original[i];
      var day := OrderDay(record);
      if day.None? {
        SweepHalts(original, i, today);
        JoinAt(customers.rows, original, i);
        return true;
      }
      var days := today - day.value;
      SweepExtend(original, i, today, day.value);
      ghost var before := customers.rows;
      Reclassify(i, days);
      UpdateSlices(before, i, Moved(original[i], MoveOf(original[i].segment, days)));
      return false;
    }

    /** The body of the sweep for row `i`, whose order is `days` old: a current
        record older than 90 days turns lapsed, a lapsed one older than 730 days
        turns extra lapsed; either move is recorded on both lists and saved. */
    method Reclassify(i: nat, days: int)
      requires customers.Valid() && i < |customers.rows|
      requires la == cad && ela == lad
      modifies this, customers
      ensures customers.Valid()
      ensures var r := old(customers.rows[i]);
        var m := MoveOf(r.segment, days);
        && customers.rows == old(customers.rows)[i := Moved(r, m)]
        && cad == old(cad) + (if m == ToLapsed then [r.email] else [])
        && lad == old(lad) + (if m == ToExtraLapsed then [r.email] else [])
        && la == cad && ela == lad
        && ca == old(ca) && elad == old(elad)
    {
      var record := customers.rows[i];
      if days > 90 && days <= 730 {
        if record.segment == Some(CURRENT) {
          cad := cad + [record.email];
          la := la + [record.email];
          record := record.(segment := Some(LAPSED));
          customers.Save(record);
        }
      }
      if days > 730 {
        if record.segment == Some(LAPSED) {
          lad := lad + [record.email];
          ela := ela + [record.email];
          record := record.(segment := Some(EXTRA_LAPSED));
          customers.Save(record);
        }
      }
    }

    /** `add_sort`: the initial pass. */
    method AddSort()
      modifies this
      ensures ca == EmailsWithSegment(customers.rows, CURRENT)
      ensures la == EmailsWithSegment(customers.rows, LAPSED)
      ensures ela == EmailsWithSegment(customers.rows, EXTRA_LAPSED)
      ensures cad == old(cad) && lad == old(lad) && elad == old(elad)
    {
      var _ := GeneratePushes(true);
    }

    /** `add_remove_sort`: the arrivals, then the sweep. On an empty table the first
        step raises and the sweep never runs. */
    method AddRemoveSort(today: int) returns (r: Outcome<SortError>)
      requires customers.Valid()
      modifies this, customers
      ensures customers.Valid()
      ensures old(customers.rows) == [] ==>
        r == Fail(EmptyTable) && customers.rows == [] && ca == [] && la == [] && ela == []
        && cad == old(cad) && lad == old(lad) && elad == old(elad)
      ensures old(customers.rows) != [] ==>
        var s := SweepOf(old(customers.rows), today);
        && Arrivals(old(customers.rows)) == Ok(ca)
        && customers.rows == s.rows
        && cad == s.cad && la == s.cad
        && lad == s.lad && ela == s.lad
        && elad == []
        && (r.Fail? <==> s.stoppedAt.Some?)
    {
      r := GeneratePushes(false);
      if r.Fail? {
        return;
      }
      r := GenerateDeletes(today);
    }

    // The list getters (`current`, `lapsed`, ... in the source).

    function Current(): (r: seq<Email>) reads this ensures r == ca { ca }
    function LapsedList(): (r: seq<Email>) reads this ensures r == la { la }
    function ExtraLapsed(): (r: seq<Email>) reads this ensures r == ela { ela }
    function CurrentDeletes(): (r: seq<Email>) reads this ensures r == cad { cad }
    function LapsedDeletes(): (r: seq<Email>) reads this ensures r == lad { lad }
    function ExtraLapsedDeletes(): (r: seq<Email>) reads this ensures r == elad { elad }
  }
}
