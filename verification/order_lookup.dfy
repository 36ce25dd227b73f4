/** Order tracking by phone number (CakeApp/app.py `get_orders_by_phone`):
    phone cells are compared through a lenient key, and the matching orders
    come back newest first. */
module OrderLookup {
  import Text
  import Seqs
  import opened OrderLedger
  import opened Wrappers

  /** `normalize_phone`: surrounding whitespace removed, then one trailing
      ".0" (the mark a phone stored as a float number leaves) dropped.
      Nothing else is touched: dashes, spaces inside and letters remain. */
  function NormalizePhone(p: string): (r: string)
    ensures Text.EndsWith(Text.Trim(p), ".0") ==> r + ".0" == Text.Trim(p)
    ensures !Text.EndsWith(Text.Trim(p), ".0") ==> r == Text.Trim(p)
  {
    var s := Text.Trim(p);
    if Text.EndsWith(s, ".0") then s[..|s| - 2] else s
  }

  /** A string of digits does not end in ".0". */
  lemma DigitsDoNotEndInDotZero(d: string)
    requires Text.AllDigits(d)
    ensures !Text.EndsWith(d, ".0")
  {
    if |d| >= 2 {
      assert d[|d| - 2..][0] == d[|d| - 2];
    }
  }

  /** A phone of digits only, as `save_order` stores it, is its own key. */
  lemma DigitPhoneIsItsOwnKey(d: string)
    requires Text.AllDigits(d)
    ensures NormalizePhone(d) == d
  {
    Text.TrimOfPadded([], d, []);
    assert [] + d + [] == d;
    DigitsDoNotEndInDotZero(d);
  }

  /** Whitespace around a non-empty digit phone does not change its key. */
  lemma PaddedDigitPhoneKey(d: string, before: string, after: string)
    requires Text.AllDigits(d) && d != []
    requires Text.AllSpace(before) && Text.AllSpace(after)
    ensures NormalizePhone(before + d + after) == d
  {
    Text.TrimOfPadded(before, d, after);
    DigitsDoNotEndInDotZero(d);
  }

  /** Nor does the ".0" that a number-typed phone cell carries. */
  lemma FloatArtifactDroppedFromKey(d: string, before: string, after: string)
    requires Text.AllDigits(d) && d != []
    requires Text.AllSpace(before) && Text.AllSpace(after)
    ensures NormalizePhone(before + d + ".0" + after) == d
  {
    var x := d + ".0";
    assert before + d + ".0" + after == before + x + after;
    Text.TrimOfPadded(before, x, after);
    assert x[|x| - 2..] == ".0";
    assert x[..|x| - 2] == d;
  }

  /** A phone with no whitespace at either end and no dot before its last
      character is its own key. */
  lemma PlainPhoneIsItsOwnKey(x: string)
    requires x != [] && !Text.IsSpace(x[0]) && !Text.IsSpace(x[|x| - 1])
    requires |x| < 2 || x[|x| - 2] != '.'
    ensures NormalizePhone(x) == x
  {
    Text.TrimOfPadded([], x, []);
    assert [] + x + [] == x;
    if |x| >= 2 {
      assert x[|x| - 2..][0] == x[|x| - 2];
    }
  }

  /** Two groups of digits side by side are digits. */
  lemma DigitsConcat(a: string, b: string)
    requires Text.AllDigits(a) && Text.AllDigits(b)
    ensures Text.AllDigits(a + b)
  {
    forall i | 0 <= i < |a + b| ensures Text.IsDigit((a + b)[i]) {
      if i >= |a| { assert (a + b)[i] == b[i - |a|]; }
    }
  }

  /** The key keeps every character other than surrounding whitespace and a
      final ".0": a query with a dash between two groups of digits is its
      own key, so it never matches the digits-only phone that the order
      form stored for the same number. */
  lemma DashedQueryMissesStoredPhone(a: string, b: string)
    requires Text.AllDigits(a) && a != []
    requires Text.AllDigits(b) && b != []
    ensures NormalizePhone(a + "-" + b) == a + "-" + b
    ensures NormalizePhone(a + "-" + b) != NormalizePhone(a + b)
  {
    var dashed := a + "-" + b;
    var n := |dashed|;
    assert dashed[0] == a[0];
    assert dashed[n - 1] == b[|b| - 1];
    assert dashed[n - 2] == if |b| == 1 then '-' else b[|b| - 2];
    PlainPhoneIsItsOwnKey(dashed);
    DigitsConcat(a, b);
    DigitPhoneIsItsOwnKey(a + b);
  }

  /** A row is among the results of a lookup by `query`. */
  predicate Matches(row: Row, query: string) {
    NormalizePhone(row.phone) == NormalizePhone(query)
  }

  // ---------------------------------------------------------------------
  // Sorting by id, largest first
  // ---------------------------------------------------------------------

  predicate IdsNonIncreasing(t: Table) {
    forall i, j :: 0 <= i < j < |t| ==> t[i].id >= t[j].id
  }

  /** Inserts `x` into a table sorted by decreasing id, before the first
      row whose id is not larger. */
  function InsertByIdDesc(x: Row, t: Table): (r: Table)
    requires IdsNonIncreasing(t)
    ensures IdsNonIncreasing(r)
    ensures multiset(r) == multiset(t) + multiset{x}
    ensures r[0] == x || (t != [] && r[0] == t[0])
  {
    if t == [] || t[0].id <= x.id then [x] + t
    else
      var rest := InsertByIdDesc(x, t[1..]);
      assert t == [t[0]] + t[1..];
      ConsSorted(t[0], rest);
      [t[0]] + rest
  }

  /** A row whose id is at least that of the head of a sorted table can go
      in front of it. */
  lemma ConsSorted(y: Row, t: Table)
    requires IdsNonIncreasing(t)
    requires t == [] || y.id >= t[0].id
    ensures IdsNonIncreasing([y] + t)
  {
  }

  /** Sorts a table by decreasing id: `sort_values(by='id', ascending=False)`.
      pandas' `sort_values` does not fix the order of rows with equal ids;
      this model picks one of the orders it allows. */
  function SortByIdDesc(t: Table): (r: Table)
    ensures IdsNonIncreasing(r)
    ensures multiset(r) == multiset(t)
  {
    if t == [] then []
    else
      assert t == [t[0]] + t[1..];
      InsertByIdDesc(t[0], SortByIdDesc(t[1..]))
  }

  // ---------------------------------------------------------------------
  // get_orders_by_phone
  // ---------------------------------------------------------------------

  /** `get_orders_by_phone(phone)` on the table read from the sheet: every
      row whose phone key equals the query's key, each as often as it occurs
      in the table, and no other row, ordered by id from largest to
      smallest. An empty table gives an empty result. */
  function GetOrdersByPhone(t: Table, phone: string): (r: Table)
    ensures forall row :: row in r <==> row in t && Matches(row, phone)
    ensures forall row :: multiset(r)[row] == if Matches(row, phone) then multiset(t)[row] else 0
    ensures IdsNonIncreasing(r)
  {
    if t == [] then []
    else
      var kept := Seqs.Filter(row => Matches(row, phone), t);
      var r := SortByIdDesc(kept);
      SameElements(r, kept);
      r
  }

  /** Two tables holding the same rows equally often hold the same rows. */
  lemma SameElements(a: Table, b: Table)
    requires multiset(a) == multiset(b)
    ensures forall row :: row in a <==> row in b
  {
    forall row ensures row in a <==> row in b {
      assert row in a <==> row in multiset(a);
      assert row in b <==> row in multiset(b);
    }
  }

  /** Queries with the same key find the same orders. */
  lemma LookupDependsOnlyOnKey(t: Table, q1: string, q2: string)
    requires NormalizePhone(q1) == NormalizePhone(q2)
    ensures GetOrdersByPhone(t, q1) == GetOrdersByPhone(t, q2)
  {
    if t != [] {
      Seqs.FilterAgreeing((row: Row) => Matches(row, q1), (row: Row) => Matches(row, q2), t);
    }
  }

  /** In a table sorted by decreasing id, a row whose id exceeds that of
      every other row comes first. */
  lemma LargestIdComesFirst(r: Table, x: Row)
    requires IdsNonIncreasing(r)
    requires x in r
    requires forall k :: 0 <= k < |r| && r[k] != x ==> r[k].id < x.id
    ensures r[0] == x
  {
    var k :| 0 <= k < |r| && r[k] == x;
    assert r[0].id >= r[k].id;
  }

  /** A row whose id exceeds every id of a table has the largest id of the
      table extended by it. */
  lemma AppendedRowIsLargest(t: Table, x: Row)
    requires forall i :: 0 <= i < |t| ==> t[i].id < x.id
    ensures forall y :: y in t + [x] && y != x ==> y.id < x.id
  {
    forall y | y in t + [x] && y != x ensures y.id < x.id {
      assert y in t;
      var i :| 0 <= i < |t| && t[i] == y;
    }
  }

  /** Right after an order is saved, tracking with a query whose key equals
      the stored phone's key shows that order first: its id exceeds every
      other id in the table. */
  lemma NewOrderIsTrackedFirst(t: Table, date: string, name: string, phone: string, email: string,
                               amount: real, details: string, query: string)
    requires NormalizePhone(Text.StripNonDigits(phone)) == NormalizePhone(query)
    ensures var saved := SaveOrder(t, date, name, phone, email, amount, details);
            var found := GetOrdersByPhone(saved.table, query);
            found != [] && found[0] == saved.table[|t|]
  {
    var saved := SaveOrder(t, date, name, phone, email, amount, details);
    var newRow := saved.table[|t|];
    assert saved.table == t + [newRow];
    assert Matches(newRow, query);
    AppendedRowIsLargest(t, newRow);
    LargestMatchIsFoundFirst(saved.table, newRow, query);
  }

  /** A matching row whose id exceeds every other row's id heads the
      lookup's result. */
  lemma LargestMatchIsFoundFirst(table: Table, x: Row, query: string)
    requires x in table && Matches(x, query)
    requires forall y :: y in table && y != x ==> y.id < x.id
    ensures GetOrdersByPhone(table, query) != []
    ensures GetOrdersByPhone(table, query)[0] == x
  {
    var found := GetOrdersByPhone(table, query);
    assert x in found;
    OthersAreSmaller(found, table, x);
    LargestIdComesFirst(found, x);
  }

  /** Rows drawn from `table` other than `x` have smaller ids than `x` when
      every other row of `table` does. */
  lemma OthersAreSmaller(found: Table, table: Table, x: Row)
    requires forall y :: y in found ==> y in table
    requires forall y :: y in table && y != x ==> y.id < x.id
    ensures forall k :: 0 <= k < |found| && found[k] != x ==> found[k].id < x.id
  {
  }

  /** After staff change an order's status, tracking shows the new status
      and payment on every order with that id. */
  lemma TrackingShowsUpdate(t: Table, orderId: int, newStatus: string, paymentStatus: string,
                            newAmount: Option<real>, query: string)
    ensures var t1 := After(t, UpdateStatus(t, orderId, newStatus, paymentStatus, newAmount));
            forall row :: row in GetOrdersByPhone(t1, query) && row.id == orderId ==>
              row.status == newStatus && row.paymentStatus == paymentStatus
  {
  }
}
