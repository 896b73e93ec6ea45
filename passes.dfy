/** What the sorter's passes compute, as functions of the table: the initial
    routing by stored segment, the arrivals of the newest import, and the sweep
    that moves records one bucket forward. The `Sorter` class is proved against
    these; the lemmas here state what the passes promise. */
module Passes {
  import opened Wrappers
  import opened Strings
  import opened Calendar
  import opened Segments
  import opened Customers

  datatype SortError =
    | EmptyTable           // `.get()` on an empty table raises DoesNotExist
    | BadOrderDate(row: nat) // strptime raised on this row's last_order_date

  // ----- initial pass (`_generate_pushes(initial=True)`) -----

  /** The emails of the rows whose stored segment is `label`, in table order. */
  function EmailsWithSegment(rows: seq<Customer>, segment: string): seq<Email>
    decreases |rows|
  {
    if rows == [] then []
    else
      var last := rows[|rows| - 1];
      EmailsWithSegment(rows[..|rows| - 1], segment) + (if last.segment == Some(segment) then [last.email] else [])
  }

  predicate HasKnownSegment(r: Customer)
  {
    r.segment == Some(CURRENT) || r.segment == Some(LAPSED) || r.segment == Some(EXTRA_LAPSED)
  }

  /** The emails of the rows that carry one of the three segments, in table order. */
  function KnownEmails(rows: seq<Customer>): seq<Email>
    decreases |rows|
  {
    if rows == [] then []
    else
      var last := rows[|rows| - 1];
      KnownEmails(rows[..|rows| - 1]) + (if HasKnownSegment(last) then [last.email] else [])
  }

  /** The initial pass routes each record with a known segment to exactly one of
      the three add lists, and a record with any other segment (NULL included) to none. */
  lemma {:induction false} InitialRouting(rows: seq<Customer>)
    ensures multiset(EmailsWithSegment(rows, CURRENT)) + multiset(EmailsWithSegment(rows, LAPSED))
            + multiset(EmailsWithSegment(rows, EXTRA_LAPSED))
            == multiset(KnownEmails(rows))
    decreases |rows|
  {
    if rows != [] {
      InitialRouting(rows[..|rows| - 1]);
    }
  }

  // ----- arrivals (`_generate_pushes(initial=False)`) -----

  /** The order of `ORDER BY file_parse_date DESC` on a TEXT column: NULL below every text. */
  predicate StampLe(a: Option<string>, b: Option<string>)
  {
    a.None? || (b.Some? && StrLe(a.value, b.value))
  }

  lemma StampLeFacts(a: Option<string>, b: Option<string>, c: Option<string>)
    ensures StampLe(a, a)
    ensures StampLe(a, b) || StampLe(b, a)
    ensures StampLe(a, b) && StampLe(b, c) ==> StampLe(a, c)
    ensures StampLe(a, b) && StampLe(b, a) ==> a == b
  {
    if a.Some? {
      StrLeRefl(a.value);
      if b.Some? {
        StrLeTotal(a.value, b.value);
        if StampLe(a, b) && StampLe(b, a) {
          StrLeAntisym(a.value, b.value);
        }
        if c.Some? && StampLe(a, b) && StampLe(b, c) {
          StrLeTrans(a.value, b.value, c.value);
        }
      }
    }
  }

  /** The stamp `.order_by(file_parse_date.desc()).get()` finds: the largest stamp
      in the table, which some record carries. */
  function NewestStamp(rows: seq<Customer>): (m: Option<string>)
    requires |rows| > 0
    ensures exists i :: 0 <= i < |rows| && rows[i].fileParseDate == m
    ensures forall i :: 0 <= i < |rows| ==> StampLe(rows[i].fileParseDate, m)
    decreases |rows|
  {
    if |rows| == 1 then
      StampLeFacts(rows[0].fileParseDate, rows[0].fileParseDate, rows[0].fileParseDate);
      rows[0].fileParseDate
    else
      var prefix := rows[..|rows| - 1];
      var m := NewestStamp(prefix);
      var last := rows[|rows| - 1].fileParseDate;
      NewestStep(prefix, m, last);
      assert rows == prefix + [rows[|rows| - 1]];
      if StampLe(m, last) then last else m
  }

  lemma NewestStep(prefix: seq<Customer>, m: Option<string>, last: Option<string>)
    requires forall i :: 0 <= i < |prefix| ==> StampLe(prefix[i].fileParseDate, m)
    ensures StampLe(m, last) ==> forall i :: 0 <= i < |prefix| ==> StampLe(prefix[i].fileParseDate, last)
    ensures StampLe(m, last) ==> StampLe(last, last)
    ensures !StampLe(m, last) ==> StampLe(last, m)
  {
    StampLeFacts(m, last, last);
    StampLeFacts(last, m, last);
    forall i | 0 <= i < |prefix|
      ensures StampLe(m, last) ==> StampLe(prefix[i].fileParseDate, last)
    {
      StampLeFacts(prefix[i].fileParseDate, m, last);
    }
  }

  /** The emails of the rows carrying `stamp`, in table order
      (`WHERE file_parse_date = stamp`, which peewee turns into `IS NULL` for None). */
  function EmailsStamped(rows: seq<Customer>, stamp: Option<string>): seq<Email>
    decreases |rows|
  {
    if rows == [] then []
    else
      var last := rows[|rows| - 1];
      EmailsStamped(rows[..|rows| - 1], stamp) + (if last.fileParseDate == stamp then [last.email] else [])
  }

  /** The current add list of an incremental run, or the error an empty table raises. */
  function Arrivals(rows: seq<Customer>): (r: Result<seq<Email>, SortError>)
    ensures r.Err? <==> rows == []
    ensures r.Err? ==> r.error == EmptyTable
  {
    if rows == [] then Err(EmptyTable) else Ok(EmailsStamped(rows, NewestStamp(rows)))
  }

  /** The arrivals are exactly the records carrying the newest stamp: whichever stamp
      is both carried by some record and no older than any other, it is the one used. */
  lemma ArrivalsCarryNewestStamp(rows: seq<Customer>, newest: Option<string>)
    requires exists i :: 0 <= i < |rows| && rows[i].fileParseDate == newest
    requires forall i :: 0 <= i < |rows| ==> StampLe(rows[i].fileParseDate, newest)
    ensures Arrivals(rows) == Ok(EmailsStamped(rows, newest))
  {
    var m := NewestStamp(rows);
    var i :| 0 <= i < |rows| && rows[i].fileParseDate == newest;
    var j :| 0 <= j < |rows| && rows[j].fileParseDate == m;
    StampLeFacts(m, newest, m);
  }

  // ----- the sweep (`_generate_deletes`) -----

  /** `datetime.strptime(record.last_order_date, '%Y-%m-%d')` as a day number;
      None where it raises (a NULL or a malformed date). */
  function OrderDay(r: Customer): Option<int>
  {
    match r.lastOrderDate
    case None => None
    case Some(text) =>
      match ParseIso(text)
      case None => None
      case Some(d) => Some(Ordinal(d))
  }

  datatype Move = Stay | ToLapsed | ToExtraLapsed

  /** The transition rule of `_generate_deletes`: a current record whose order is
      91 to 730 days old lapses, a lapsed record whose order is over 730 days old
      becomes extra lapsed, and nothing else moves — in particular a current record
      over 730 days old stays current. */
  function MoveOf(segment: Option<string>, days: int): (m: Move)
    ensures m == ToLapsed <==> segment == Some(CURRENT) && 90 < days <= 730
    ensures m == ToExtraLapsed <==> segment == Some(LAPSED) && days > 730
  {
    if 90 < days <= 730 && segment == Some(CURRENT) then ToLapsed
    else if days > 730 && segment == Some(LAPSED) then ToExtraLapsed
    else Stay
  }

  /** The sweep's thresholds are the classifier's: a record lapses exactly when it is
      stored as current and `return_segment` now calls it lapsed, and it becomes extra
      lapsed exactly when it is stored as lapsed and `return_segment` now calls it so. */
  lemma MoveFollowsClassifier(segment: Option<string>, orderDay: int, today: int)
    ensures MoveOf(segment, today - orderDay) == ToLapsed
            <==> segment == Some(CURRENT) && ReturnSegment(orderDay, today) == Some(Lapsed)
    ensures MoveOf(segment, today - orderDay) == ToExtraLapsed
            <==> segment == Some(LAPSED) && ReturnSegment(orderDay, today) == Some(ExtraLapsed)
  {
  }

  function Moved(r: Customer, m: Move): Customer
  {
    match m
    case Stay => r
    case ToLapsed => r.(segment := Some(LAPSED))
    case ToExtraLapsed => r.(segment := Some(EXTRA_LAPSED))
  }

  /** A record as the sweep leaves it once it has been looked at. */
  function Advanced(r: Customer, today: int): Customer
  {
    match OrderDay(r)
    case None => r
    case Some(day) => Moved(r, MoveOf(r.segment, today - day))
  }

  /** The table after a sweep, the remove lists it fills (the add lists of the
      next buckets equal them), and the row whose date made it stop, if any. */
  datatype Sweep = Sweep(rows: seq<Customer>, cad: seq<Email>, lad: seq<Email>, stoppedAt: Option<nat>)

  /** The sweep after one more row `r`, found at index `n`: nothing happens once
      the sweep has stopped; an unreadable date stops it at `n`; otherwise the row
      is moved by the rule and, if it moved, its email is emitted. */
  function SweepNext(s: Sweep, r: Customer, n: nat, today: int): Sweep
  {
    if s.stoppedAt.Some? then s.(rows := s.rows + [r])
    else
      match OrderDay(r)
      case None => s.(rows := s.rows + [r], stoppedAt := Some(n))
      case Some(day) =>
        var m := MoveOf(r.segment, today - day);
        Sweep(s.rows + [Moved(r, m)],
              s.cad + (if m == ToLapsed then [r.email] else []),
              s.lad + (if m == ToExtraLapsed then [r.email] else []),
              None)
  }

  function SweepOf(rows: seq<Customer>, today: int): (s: Sweep)
    ensures |s.rows| == |rows|
    ensures s.stoppedAt.Some? ==> s.stoppedAt.value < |rows| && OrderDay(rows[s.stoppedAt.value]).None?
    ensures |s.cad| + |s.lad| <= |rows|
    decreases |rows|
  {
    if rows == [] then Sweep([], [], [], None)
    else SweepNext(SweepOf(rows[..|rows| - 1], today), rows[|rows| - 1], |rows| - 1, today)
  }

  /** Row `i` was looked at before the sweep stopped. */
  predicate Reached(s: Sweep, i: int)
  {
    s.stoppedAt.None? || i < s.stoppedAt.value
  }

  /** One more row: how the sweep of a table extends the sweep of its prefix. */
  lemma SweepStep(rows: seq<Customer>, today: int)
    requires rows != []
    ensures var n := |rows| - 1;
      var s0 := SweepOf(rows[..n], today);
      var s := SweepOf(rows, today);
      var r := rows[n];
      && s.rows[..n] == s0.rows
      && s.rows[n] == (if s0.stoppedAt.None? then Advanced(r, today) else r)
      && s.stoppedAt == (if s0.stoppedAt.Some? then s0.stoppedAt
                         else if OrderDay(r).None? then Some(n) else None)
  {
    var n := |rows| - 1;
    var s0 := SweepOf(rows[..n], today);
    var s := SweepOf(rows, today);
    if s0.stoppedAt.Some? {
      assert s.rows == s0.rows + [rows[n]];
    } else if OrderDay(rows[n]).None? {
      assert s.rows == s0.rows + [rows[n]];
    } else {
      assert s.rows == s0.rows + [Advanced(rows[n], today)];
    }
  }

  /** One more row read with a readable date, while the walk has not stopped. */
  lemma SweepExtend(rows: seq<Customer>, i: nat, today: int, day: int)
    requires i < |rows| && SweepOf(rows[..i], today).stoppedAt.None?
    requires OrderDay(rows[i]) == Some(day)
    ensures var s := SweepOf(rows[..i], today);
      var r := rows[i];
      var m := MoveOf(r.segment, today - day);
      SweepOf(rows[..i + 1], today)
        == Sweep(s.rows + [Moved(r, m)],
                 s.cad + (if m == ToLapsed then [r.email] else []),
                 s.lad + (if m == ToExtraLapsed then [r.email] else []),
                 None)
  {
    PrefixOfPrefix(rows, i);
  }

  /** A row whose date cannot be read stops the walk there: the rows from it on
      are left as they were and nothing more is emitted. */
  lemma SweepHalts(rows: seq<Customer>, i: nat, today: int)
    requires i < |rows| && SweepOf(rows[..i], today).stoppedAt.None?
    requires OrderDay(rows[i]).None?
    ensures var s := SweepOf(rows[..i], today);
      SweepOf(rows, today) == s.(rows := s.rows + rows[i..], stoppedAt := Some(i))
  {
    PrefixOfPrefix(rows, i);
    var s := SweepOf(rows[..i], today);
    assert SweepOf(rows[..i + 1], today) == s.(rows := s.rows + [rows[i]], stoppedAt := Some(i));
    SweepAfterStop(rows, i + 1, today);
    AppendAt(s.rows, rows, i);
  }

  lemma PrefixOfPrefix<T>(s: seq<T>, i: nat)
    requires i < |s|
    ensures s[..i + 1][..i] == s[..i]
  {
  }

  lemma JoinAt<T>(s: seq<T>, t: seq<T>, i: nat)
    requires i <= |s| == |t| && s[i..] == t[i..]
    ensures s == s[..i] + t[i..]
  {
    assert s == s[..i] + s[i..];
  }

  lemma UpdateSlices<T>(s: seq<T>, i: nat, x: T)
    requires i < |s|
    ensures s[i := x][..i + 1] == s[..i] + [x]
    ensures s[i := x][i + 1..] == s[i + 1..]
  {
  }

  lemma AppendAt<T>(a: seq<T>, s: seq<T>, i: nat)
    requires i < |s|
    ensures a + [s[i]] + s[i + 1..] == a + s[i..]
  {
    assert s[i..] == [s[i]] + s[i + 1..];
  }

  /** Once a sweep has stopped, the remaining rows are carried over untouched. */
  lemma {:induction false} SweepAfterStop(rows: seq<Customer>, k: nat, today: int)
    requires k <= |rows| && SweepOf(rows[..k], today).stoppedAt.Some?
    ensures var s := SweepOf(rows[..k], today);
      SweepOf(rows, today) == s.(rows := s.rows + rows[k..])
    decreases |rows|
  {
    var s := SweepOf(rows[..k], today);
    if |rows| == k {
      assert rows[..k] == rows && rows[k..] == [];
      assert s.rows + [] == s.rows;
    } else {
      var n := |rows| - 1;
      assert rows[..n][..k] == rows[..k];
      SweepAfterStop(rows[..n], k, today);
      assert rows[..n][k..] + [rows[n]] == rows[k..];
    }
  }

  /** What a sweep does to the table: it walks the rows in order and advances each
      one; a row whose date cannot be read stops it, and that row and all later ones
      are left as they were while the updates already saved stay saved. */
  lemma {:induction false} SweepShape(rows: seq<Customer>, today: int)
    ensures var s := SweepOf(rows, today);
      && (s.stoppedAt.Some? ==> s.stoppedAt.value < |rows| && OrderDay(rows[s.stoppedAt.value]).None?)
      && (forall i :: 0 <= i < |rows| && Reached(s, i) ==> OrderDay(rows[i]).Some?)
      && (forall i :: 0 <= i < |rows| ==> s.rows[i] == if Reached(s, i) then Advanced(rows[i], today) else rows[i])
    decreases |rows|
  {
    if rows != [] {
      var n := |rows| - 1;
      var prefix := rows[..n];
      SweepShape(prefix, today);
      SweepStep(rows, today);
      var s0 := SweepOf(prefix, today);
      var s := SweepOf(rows, today);
      assert Reached(s, n) <==> s0.stoppedAt.None? && OrderDay(rows[n]).Some?;
      forall i | 0 <= i < n
        ensures Reached(s, i) == Reached(s0, i)
      {
      }
      forall i | 0 <= i < |rows|
        ensures Reached(s, i) ==> OrderDay(rows[i]).Some?
        ensures s.rows[i] == if Reached(s, i) then Advanced(rows[i], today) else rows[i]
      {
        if i < n {
          assert rows[i] == prefix[i];
          assert s.rows[i] == s0.rows[i];
          assert Reached(s, i) == Reached(s0, i);
        }
      }
    }
  }

  /** A sweep changes nothing but segments, and a segment only as the transition
      rule says: current to lapsed for orders 91 to 730 days old, lapsed to extra
      lapsed for orders over 730 days old. */
  lemma SweepTransitions(rows: seq<Customer>, today: int, i: nat)
    requires i < |rows|
    ensures var after := SweepOf(rows, today).rows[i];
      && after == rows[i].(segment := after.segment)
      && (after.segment != rows[i].segment ==>
            OrderDay(rows[i]).Some?
            && var days := today - OrderDay(rows[i]).value;
            || (rows[i].segment == Some(CURRENT) && after.segment == Some(LAPSED) && 90 < days <= 730)
            || (rows[i].segment == Some(LAPSED) && after.segment == Some(EXTRA_LAPSED) && days > 730))
  {
    SweepShape(rows, today);
  }

  /** The emails of the records whose stored segment went from `from` to `to`, in table order. */
  function ChangedEmails(before: seq<Customer>, after: seq<Customer>, from: string, to: string): seq<Email>
    requires |before| == |after|
    decreases |before|
  {
    if before == [] then []
    else
      var n := |before| - 1;
      ChangedEmails(before[..n], after[..n], from, to)
        + (if before[n].segment == Some(from) && after[n].segment == Some(to) then [before[n].email] else [])
  }

  /** A record is emitted on a remove list exactly when its segment is rewritten:
      `current` removals are the records rewritten from current to lapsed, `lapsed`
      removals those rewritten from lapsed to extra lapsed, in table order. */
  lemma {:induction false} SweepEmitsRewrites(rows: seq<Customer>, today: int)
    ensures var s := SweepOf(rows, today);
      && s.cad == ChangedEmails(rows, s.rows, CURRENT, LAPSED)
      && s.lad == ChangedEmails(rows, s.rows, LAPSED, EXTRA_LAPSED)
    decreases |rows|
  {
    if rows != [] {
      var n := |rows| - 1;
      SweepEmitsRewrites(rows[..n], today);
      var s := SweepOf(rows, today);
      assert s.rows[..n] == SweepOf(rows[..n], today).rows;
    }
  }

  /** A moved record does not move again on the same day. */
  lemma MovedStays(r: Customer, days: int)
    ensures MoveOf(Moved(r, MoveOf(r.segment, days)).segment, days) == Stay
  {
  }

  /** Running the sweep again on the same day changes nothing and emits nothing,
      whether or not the first run stopped on a bad date. */
  lemma {:induction false} SweepIdempotent(rows: seq<Customer>, today: int)
    ensures var s := SweepOf(rows, today);
      var again := SweepOf(s.rows, today);
      again.rows == s.rows && again.cad == [] && again.lad == [] && again.stoppedAt == s.stoppedAt
    decreases |rows|
  {
    if rows != [] {
      var n := |rows| - 1;
      var s0 := SweepOf(rows[..n], today);
      var s := SweepOf(rows, today);
      SweepIdempotent(rows[..n], today);
      NextIdempotent(s0, SweepOf(s0.rows, today), rows[n], n, today);
      assert s == SweepNext(s0, rows[n], n, today);
      assert s.rows[..n] == s0.rows;
      assert SweepOf(s.rows, today) == SweepNext(SweepOf(s.rows[..n], today), s.rows[n], n, today);
    }
  }

  /** The step of `SweepIdempotent`: a second pass over a row that the first pass
      has already advanced leaves it alone, as long as the second pass has so far
      reproduced the first one's rows and stop. */
  lemma NextIdempotent(s0: Sweep, again0: Sweep, r: Customer, n: nat, today: int)
    requires again0.rows == s0.rows && again0.cad == [] && again0.lad == []
    requires again0.stoppedAt == s0.stoppedAt
    ensures var s := SweepNext(s0, r, n, today);
      var again := SweepNext(again0, s.rows[|s.rows| - 1], n, today);
      again.rows == s.rows && again.cad == [] && again.lad == [] && again.stoppedAt == s.stoppedAt
  {
    if s0.stoppedAt.None? && OrderDay(r).Some? {
      MovedStays(r, today - OrderDay(r).value);
      assert OrderDay(Moved(r, MoveOf(r.segment, today - OrderDay(r).value))) == OrderDay(r);
    }
  }

  /** After a sweep that reached the end, no record is left that the rule would move. */
  lemma SweepSettles(rows: seq<Customer>, today: int, i: nat)
    requires SweepOf(rows, today).stoppedAt.None? && i < |rows|
    ensures var after := SweepOf(rows, today).rows[i];
      OrderDay(after).Some? && MoveOf(after.segment, today - OrderDay(after).value) == Stay
  {
    SweepShape(rows, today);
    MovedStays(rows[i], today - OrderDay(rows[i]).value);
  }

  /** A record stamped by `return_segment` at import and swept on a later day holds
      the segment `return_segment` gives today, except a current record whose order
      has meanwhile become more than 730 days old: the sweep misses that jump. */
  lemma SweepReclassifies(r: Customer, importDay: int, today: int)
    requires OrderDay(r).Some? && importDay <= today
    requires ReturnSegment(OrderDay(r).value, importDay).Some?
    requires r.segment == Some(Label(ReturnSegment(OrderDay(r).value, importDay).value))
    ensures ReturnSegment(OrderDay(r).value, today).Some?
    ensures Advanced(r, today).segment == Some(Label(ReturnSegment(OrderDay(r).value, today).value))
            || (r.segment == Some(CURRENT) && today - OrderDay(r).value > 730)
  {
  }
}
