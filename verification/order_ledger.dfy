/** The cake studio's order ledger (CakeApp/app.py): a spreadsheet that is
    only ever read whole and written whole. Every operation is a pure
    transformation of the table it read; the spreadsheet service itself is
    not part of this model, and its reads arrive as a `SheetRead` value. */
module OrderLedger {
  import Text
  import opened Wrappers

  /** One order, a row of the sheet with the ledger's nine columns. */
  datatype Row = Row(
    id: int,
    date: string,
    name: string,
    phone: string,
    email: string,
    status: string,
    paymentStatus: string,
    amount: real,
    details: string)

  type Table = seq<Row>

  /** The columns every read must have and every write produces. */
  const ExpectedColumns: seq<string> :=
    ["id", "date", "name", "phone", "email", "status", "payment_status", "amount", "details"]

  const InitialStatus: string := "Order Received"
  const InitialPayment: string := "Unpaid"

  // ---------------------------------------------------------------------
  // The sheet as the spreadsheet service delivers it
  // ---------------------------------------------------------------------

  /** A cell of the id column before coercion: a number, or text (a blank
      cell is the empty text). */
  datatype IdCell = Number(value: real) | TextCell(text: string)

  /** A row as read, before its id is coerced to an integer. */
  datatype RawRow = RawRow(
    id: IdCell,
    date: string,
    name: string,
    phone: string,
    email: string,
    status: string,
    paymentStatus: string,
    amount: real,
    details: string)

  datatype Sheet = Sheet(columns: seq<string>, rows: seq<RawRow>)

  /** The outcome of reading the sheet: it fails, or delivers the sheet. */
  datatype SheetRead = ReadFailed | Read(sheet: Sheet)

  predicate HasExpectedColumns(columns: seq<string>) {
    forall i :: 0 <= i < |ExpectedColumns| ==> ExpectedColumns[i] in columns
  }

  /** A data frame is empty when it has no rows or no columns. */
  predicate IsEmptyFrame(s: Sheet) {
    s.rows == [] || s.columns == []
  }

  /** Conversion of a number to an integer, truncating toward zero. */
  function TruncateToInt(x: real): (i: int)
    ensures x >= 0.0 ==> 0 <= i && i as real <= x < i as real + 1.0
    ensures x < 0.0 ==> i <= 0 && i as real - 1.0 < x <= i as real
  {
    if x >= 0.0 then x.Floor else -((-x).Floor)
  }

  /** The id column's coercion: numbers are truncated to integers, text that
      spells an integer becomes that integer, and anything else becomes 0. */
  function CoerceId(c: IdCell): (i: int)
    ensures c.TextCell? && Text.ParseInt(c.text).None? ==> i == 0
    ensures c.TextCell? && Text.ParseInt(c.text).Some? ==> i == Text.ParseInt(c.text).value
    ensures c.Number? && c.value >= 0.0 ==> i as real <= c.value < i as real + 1.0
    ensures c.Number? && c.value < 0.0 ==> i as real - 1.0 < c.value <= i as real
  {
    match c
    case Number(v) => TruncateToInt(v)
    case TextCell(s) => Text.ParseInt(s).GetOr(0)
  }

  function RowOf(raw: RawRow): Row {
    Row(CoerceId(raw.id), raw.date, raw.name, raw.phone, raw.email,
        raw.status, raw.paymentStatus, raw.amount, raw.details)
  }

  function RowsOf(raws: seq<RawRow>): (t: Table)
    ensures |t| == |raws|
    ensures forall i :: 0 <= i < |raws| ==> t[i] == RowOf(raws[i])
  {
    if raws == [] then [] else [RowOf(raws[0])] + RowsOf(raws[1..])
  }

  /** `get_all_orders()`: a failed read, an empty frame or a frame missing
      any expected column all give the empty table; otherwise every row is
      kept, in sheet order, with its id coerced and its other cells as read. */
  function GetAllOrders(read: SheetRead): (t: Table)
    ensures read.ReadFailed? ==> t == []
    ensures read.Read? && (IsEmptyFrame(read.sheet) || !HasExpectedColumns(read.sheet.columns)) ==> t == []
    ensures read.Read? && !IsEmptyFrame(read.sheet) && HasExpectedColumns(read.sheet.columns) ==>
      |t| == |read.sheet.rows| &&
      forall i :: 0 <= i < |t| ==>
        var raw := read.sheet.rows[i];
        && t[i].id == CoerceId(raw.id)
        && t[i].date == raw.date && t[i].name == raw.name && t[i].phone == raw.phone
        && t[i].email == raw.email && t[i].status == raw.status
        && t[i].paymentStatus == raw.paymentStatus && t[i].amount == raw.amount
        && t[i].details == raw.details
  {
    match read
    case ReadFailed => []
    case Read(sheet) =>
      if IsEmptyFrame(sheet) || !HasExpectedColumns(sheet.columns) then []
      else RowsOf(sheet.rows)
  }

  /** The sheet a write of table `t` leaves behind: the expected columns,
      one row per order, ids stored as numbers. */
  function Export(t: Table): (s: Sheet)
    ensures s.columns == ExpectedColumns && |s.rows| == |t|
  {
    Sheet(ExpectedColumns, seq(|t|, i requires 0 <= i < |t| =>
      var row := t[i];
      RawRow(Number(row.id as real), row.date, row.name, row.phone, row.email,
             row.status, row.paymentStatus, row.amount, row.details)))
  }

  /** Whatever table is written is read back unchanged. */
  lemma ReadBackWritten(t: Table)
    ensures GetAllOrders(Read(Export(t))) == t
  {
    var s := Export(t);
    assert HasExpectedColumns(s.columns);
    if t != [] {
      var back := GetAllOrders(Read(s));
      assert |back| == |t|;
      forall i | 0 <= i < |t| ensures back[i] == t[i] {
        assert TruncateToInt(t[i].id as real) == t[i].id;
      }
    }
  }

  /** An id kept as text in its decimal spelling is read back as that id. */
  lemma TextIdsReadBack(id: int)
    ensures CoerceId(TextCell(Text.IntToString(id))) == id
  {
    Text.IntToStringRoundTrip(id);
  }

  // ---------------------------------------------------------------------
  // save_order
  // ---------------------------------------------------------------------

  /** The largest id in a non-empty table. */
  function MaxId(t: Table): (m: int)
    requires t != []
    ensures forall i :: 0 <= i < |t| ==> t[i].id <= m
    ensures exists i :: 0 <= i < |t| && t[i].id == m
  {
    if |t| == 1 then t[0].id
    else
      var m := MaxId(t[..|t| - 1]);
      if t[|t| - 1].id > m then t[|t| - 1].id else m
  }

  /** The id the next saved order gets: 1 in an empty table, otherwise one
      more than the largest id, which exceeds every id in the table. */
  function NextId(t: Table): (id: int)
    ensures t == [] ==> id == 1
    ensures forall i :: 0 <= i < |t| ==> t[i].id < id
    ensures t != [] ==> exists i :: 0 <= i < |t| && t[i].id == id - 1
  {
    if t == [] then 1 else MaxId(t) + 1
  }

  /** The phone cleaning of `save_order`: a non-empty phone loses every
      non-digit; an empty one is kept, which is the same thing. */
  function CleanPhone(phone: string): (r: string)
    ensures r == Text.StripNonDigits(phone)
    ensures Text.AllDigits(r)
  {
    if phone != "" then Text.StripNonDigits(phone) else phone
  }

  /** The table `save_order` writes and the id it returns. */
  datatype Saved = Saved(table: Table, id: int)

  /** `save_order(name, phone, email, amount, details)` on the table read
      from the sheet, with the current time passed in as `date`: exactly one
      row is appended, carrying a fresh id (one more than the largest, or 1),
      the cleaned phone and the initial status and payment; every earlier
      row stays as it was. */
  function SaveOrder(t: Table, date: string, name: string, phone: string, email: string,
                     amount: real, details: string): (r: Saved)
    ensures t == [] ==> r.id == 1
    ensures forall i :: 0 <= i < |t| ==> t[i].id < r.id
    ensures t != [] ==> exists i :: 0 <= i < |t| && t[i].id == r.id - 1
    ensures |r.table| == |t| + 1 && r.table[..|t|] == t
    ensures r.table[|t|] == Row(r.id, date, name, Text.StripNonDigits(phone), email,
                                InitialStatus, InitialPayment, amount, details)
  {
    var id := NextId(t);
    var row := Row(id, date, name, CleanPhone(phone), email, InitialStatus, InitialPayment, amount, details);
    Saved(t + [row], id)
  }

  predicate UniqueIds(t: Table) {
    forall i, j :: 0 <= i < j < |t| ==> t[i].id != t[j].id
  }

  /** Saving keeps ids unique. */
  lemma SaveKeepsIdsUnique(t: Table, date: string, name: string, phone: string, email: string,
                           amount: real, details: string)
    requires UniqueIds(t)
    ensures UniqueIds(SaveOrder(t, date, name, phone, email, amount, details).table)
  {
    var r := SaveOrder(t, date, name, phone, email, amount, details);
    forall i, j | 0 <= i < j < |r.table| ensures r.table[i].id != r.table[j].id {
      assert r.table[i] == t[i];
      if j < |t| {
        assert r.table[j] == t[j];
      }
    }
  }

  /** What a customer submits; the time stamp is taken at submission. */
  datatype OrderRequest = OrderRequest(
    date: string, name: string, phone: string, email: string, amount: real, details: string)

  /** The whole-sheet cycle of one `save_order` call: read, append, write.
      Returns the sheet written and the id handed back. */
  function SaveToSheet(read: SheetRead, req: OrderRequest): (r: (Sheet, int))
    ensures var saved := SaveOrder(GetAllOrders(read), req.date, req.name, req.phone,
                                   req.email, req.amount, req.details);
            GetAllOrders(Read(r.0)) == saved.table && r.1 == saved.id
  {
    var saved := SaveOrder(GetAllOrders(read), req.date, req.name, req.phone, req.email, req.amount, req.details);
    ReadBackWritten(saved.table);
    (Export(saved.table), saved.id)
  }

  /** A read that fails is taken for an empty ledger: the save then writes a
      sheet holding only the new order, numbered 1, whatever the sheet held. */
  lemma SaveAfterFailedReadOverwrites(req: OrderRequest)
    ensures var r := SaveToSheet(ReadFailed, req);
            r.1 == 1 && |r.0.rows| == 1
  {
  }

  /** Saves run one after another on a table, each on the table the
      previous one produced. Returns the final table and the ids handed back,
      in call order. */
  function SaveAll(t: Table, reqs: seq<OrderRequest>): (Table, seq<int>)
    decreases |reqs|
  {
    if reqs == [] then (t, [])
    else
      var saved := SaveOrder(t, reqs[0].date, reqs[0].name, reqs[0].phone, reqs[0].email,
                             reqs[0].amount, reqs[0].details);
      var rest := SaveAll(saved.table, reqs[1..]);
      (rest.0, [saved.id] + rest.1)
  }

  /** The same saves, each one a whole-sheet cycle that reads what the
      previous one wrote. */
  function SaveSequentially(s: Sheet, reqs: seq<OrderRequest>): (Sheet, seq<int>)
    decreases |reqs|
  {
    if reqs == [] then (s, [])
    else
      var step := SaveToSheet(Read(s), reqs[0]);
      var rest := SaveSequentially(step.0, reqs[1..]);
      (rest.0, [step.1] + rest.1)
  }

  /** Going through the sheet between saves changes nothing: the sheet
      holds, and the calls return, what the same saves on the table give. */
  lemma {:induction false} SheetSavesMatchTableSaves(s: Sheet, reqs: seq<OrderRequest>)
    ensures GetAllOrders(Read(SaveSequentially(s, reqs).0)) == SaveAll(GetAllOrders(Read(s)), reqs).0
    ensures SaveSequentially(s, reqs).1 == SaveAll(GetAllOrders(Read(s)), reqs).1
    decreases |reqs|
  {
    if reqs != [] {
      var step := SaveToSheet(Read(s), reqs[0]);
      SheetSavesMatchTableSaves(step.0, reqs[1..]);
    }
  }

  /** Ids of the table are 1, 2, ..., in row order. */
  predicate NumberedFromOne(t: Table) {
    forall i :: 0 <= i < |t| ==> t[i].id == i + 1
  }

  /** The integers `from`, `from + 1`, ..., `count` of them. */
  function Consecutive(from: int, count: nat): (r: seq<int>)
    ensures |r| == count
    ensures forall i :: 0 <= i < count ==> r[i] == from + i
    decreases count
  {
    if count == 0 then [] else [from] + Consecutive(from + 1, count - 1)
  }

  /** On a table numbered 1 to n, a save hands back n + 1 and keeps the
      numbering. */
  lemma SaveContinuesNumbering(t: Table, req: OrderRequest)
    requires NumberedFromOne(t)
    ensures var saved := SaveOrder(t, req.date, req.name, req.phone, req.email, req.amount, req.details);
            saved.id == |t| + 1 && NumberedFromOne(saved.table)
  {
    var saved := SaveOrder(t, req.date, req.name, req.phone, req.email, req.amount, req.details);
    if t != [] {
      assert t[|t| - 1].id == |t|;
    }
    forall i | 0 <= i < |saved.table| ensures saved.table[i].id == i + 1 {
      if i < |t| {
        assert saved.table[i] == saved.table[..|t|][i];
      }
    }
  }

  lemma {:induction false} SavesContinueNumbering(t: Table, reqs: seq<OrderRequest>)
    requires NumberedFromOne(t)
    ensures SaveAll(t, reqs).1 == Consecutive(|t| + 1, |reqs|)
    ensures |SaveAll(t, reqs).0| == |t| + |reqs|
    ensures NumberedFromOne(SaveAll(t, reqs).0)
    decreases |reqs|
  {
    if reqs != [] {
      var req := reqs[0];
      var saved := SaveOrder(t, req.date, req.name, req.phone, req.email, req.amount, req.details);
      var rest := SaveAll(saved.table, reqs[1..]);
      assert SaveAll(t, reqs) == (rest.0, [saved.id] + rest.1);
      SaveContinuesNumbering(t, req);
      SavesContinueNumbering(saved.table, reqs[1..]);
      assert [saved.id] + rest.1 == [|t| + 1] + Consecutive(|t| + 2, |reqs| - 1);
    }
  }

  /** N saves one after another, starting from a sheet with no orders, hand
      back the ids 1 to N in order, and the sheet then holds N rows numbered
      1 to N. */
  lemma SequentialSavesNumberFromOne(s: Sheet, reqs: seq<OrderRequest>)
    requires GetAllOrders(Read(s)) == []
    ensures SaveSequentially(s, reqs).1 == Consecutive(1, |reqs|)
    ensures |GetAllOrders(Read(SaveSequentially(s, reqs).0))| == |reqs|
    ensures NumberedFromOne(GetAllOrders(Read(SaveSequentially(s, reqs).0)))
  {
    var t0 := GetAllOrders(Read(s));
    SheetSavesMatchTableSaves(s, reqs);
    SavesContinueNumbering(t0, reqs);
    assert |t0| + 1 == 1;
  }

  // ---------------------------------------------------------------------
  // update_status
  // ---------------------------------------------------------------------

  /** A row after the staff's change: new status and payment, and a new
      amount when one is given. */
  function PatchRow(row: Row, newStatus: string, paymentStatus: string, newAmount: Option<real>): Row {
    row.(status := newStatus, paymentStatus := paymentStatus, amount := newAmount.GetOr(row.amount))
  }

  function PatchMatching(t: Table, orderId: int, newStatus: string, paymentStatus: string,
                         newAmount: Option<real>): (r: Table)
    ensures |r| == |t|
    ensures forall i :: 0 <= i < |t| ==>
      r[i] == if t[i].id == orderId then PatchRow(t[i], newStatus, paymentStatus, newAmount) else t[i]
  {
    if t == [] then []
    else
      [if t[0].id == orderId then PatchRow(t[0], newStatus, paymentStatus, newAmount) else t[0]]
      + PatchMatching(t[1..], orderId, newStatus, paymentStatus, newAmount)
  }

  /** `update_status(order_id, new_status, payment_status, new_amount)` on
      the table read from the sheet. `None` means nothing is written: no row
      has the id (in particular, the table is empty). Otherwise the table
      written differs from the one read only in the status, payment and,
      when a new amount is given, amount of the rows with that id. */
  function UpdateStatus(t: Table, orderId: int, newStatus: string, paymentStatus: string,
                        newAmount: Option<real>): (r: Option<Table>)
    ensures r.None? <==> forall i :: 0 <= i < |t| ==> t[i].id != orderId
    ensures r.Some? ==> |r.value| == |t|
    ensures r.Some? ==> forall i :: 0 <= i < |t| && t[i].id != orderId ==> r.value[i] == t[i]
    ensures r.Some? ==> forall i :: 0 <= i < |t| && t[i].id == orderId ==>
      var before, after := t[i], r.value[i];
      && after.status == newStatus
      && after.paymentStatus == paymentStatus
      && after.amount == (if newAmount.Some? then newAmount.value else before.amount)
      && after.id == before.id && after.date == before.date && after.name == before.name
      && after.phone == before.phone && after.email == before.email && after.details == before.details
  {
    if t != [] && exists i :: 0 <= i < |t| && t[i].id == orderId then
      Some(PatchMatching(t, orderId, newStatus, paymentStatus, newAmount))
    else
      None
  }

  /** The table in the sheet after a call: the one written, or the one
      that was there. */
  function After(t: Table, written: Option<Table>): Table {
    written.GetOr(t)
  }

  /** Applying the same update twice leaves the same table as applying it
      once. */
  lemma UpdateStatusIdempotent(t: Table, orderId: int, newStatus: string, paymentStatus: string,
                               newAmount: Option<real>)
    ensures var once := After(t, UpdateStatus(t, orderId, newStatus, paymentStatus, newAmount));
            After(once, UpdateStatus(once, orderId, newStatus, paymentStatus, newAmount)) == once
  {
    var once := After(t, UpdateStatus(t, orderId, newStatus, paymentStatus, newAmount));
    var twice := After(once, UpdateStatus(once, orderId, newStatus, paymentStatus, newAmount));
    assert |once| == |t|;
    forall i | 0 <= i < |once| ensures twice[i] == once[i] {
    }
  }

  /** An update keeps every id where it was, so unique ids stay unique. */
  lemma UpdateStatusKeepsIds(t: Table, orderId: int, newStatus: string, paymentStatus: string,
                             newAmount: Option<real>)
    ensures var t1 := After(t, UpdateStatus(t, orderId, newStatus, paymentStatus, newAmount));
            |t1| == |t| && (forall i :: 0 <= i < |t| ==> t1[i].id == t[i].id)
            && (UniqueIds(t) ==> UniqueIds(t1))
  {
  }

  /** `update_status(order_id, new_status)` with its defaults: the payment
      status becomes "Unpaid" and the amount is kept. */
  function UpdateStatusWithDefaults(t: Table, orderId: int, newStatus: string): (r: Option<Table>)
    ensures r.None? <==> forall i :: 0 <= i < |t| ==> t[i].id != orderId
    ensures r.Some? ==> |r.value| == |t| && forall i :: 0 <= i < |t| ==>
      if t[i].id == orderId
      then r.value[i] == t[i].(status := newStatus, paymentStatus := InitialPayment)
      else r.value[i] == t[i]
  {
    UpdateStatus(t, orderId, newStatus, InitialPayment, None)
  }

  /** The whole-sheet cycle of `update_status`: a write happens exactly
      when a row of the table read has the id, so a failed read never
      overwrites the sheet. */
  function UpdateStatusInSheet(read: SheetRead, orderId: int, newStatus: string, paymentStatus: string,
                               newAmount: Option<real>): (r: Option<Sheet>)
    ensures read.ReadFailed? ==> r.None?
    ensures r.Some? <==> UpdateStatus(GetAllOrders(read), orderId, newStatus, paymentStatus, newAmount).Some?
    ensures r.Some? ==>
      Some(GetAllOrders(Read(r.value))) == UpdateStatus(GetAllOrders(read), orderId, newStatus, paymentStatus, newAmount)
  {
    match UpdateStatus(GetAllOrders(read), orderId, newStatus, paymentStatus, newAmount)
    case None => None
    case Some(t) => ReadBackWritten(t); Some(Export(t))
  }
}
