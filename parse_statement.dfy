/**
 * The statement route's extraction (app/api/parse-statement/route.ts): the
 * transaction list is located in the OCR answer, each transaction is read
 * through fallback chains, and only rows with a date, an amount and a
 * merchant are returned.
 */
module ParseStatement {
  import opened Common
  import opened OcrJson

  /** A returned row; an amount of `None` stands for the NaN the route writes for a missing one. */
  datatype StatementRow = StatementRow(date: Json, amount: Option<real>, merchant: Json, category: Json)

  const DateKeys: seq<string> := ["date", "transaction_date", "posting_date"]
  const MerchantKeys: seq<string> := ["description", "label", "payee", "merchant", "name"]
  const AmountKeys: seq<string> := ["amount", "debit", "credit", "value"]
  const CategoryKeys: seq<string> := ["category", "transaction_type", "type"]
  const ListKeys: seq<string> := ["transactions", "line_items", "operations", "statement_lines"]

  /** `item?.fields || item` for every element of `list_of_transactions.items`. */
  function Unwrapped(items: seq<Json>): (r: seq<Json>)
    ensures |r| == |items|
    ensures forall i :: 0 <= i < |items| ==>
      r[i] == if Truthy(Get(items[i], "fields")) then Get(items[i], "fields") else items[i]
  {
    seq(|items|, i requires 0 <= i < |items| => FirstTruthy([Get(items[i], "fields")], items[i]))
  }

  /**
   * The transaction source: the unwrapped `list_of_transactions.items` when that is
   * an array, else the first truthy of `transactions`, `line_items`, `operations`,
   * `statement_lines`, else an empty array.
   */
  function Transactions(prediction: Json): (r: Json)
    ensures Path(prediction, ["list_of_transactions", "items"]).Arr? ==>
      r == Arr(Unwrapped(Path(prediction, ["list_of_transactions", "items"]).items))
    ensures !Path(prediction, ["list_of_transactions", "items"]).Arr? ==>
      r == FirstTruthy(seq(|ListKeys|, i requires 0 <= i < |ListKeys| => Get(prediction, ListKeys[i])), Arr([]))
  {
    var items := Path(prediction, ["list_of_transactions", "items"]);
    if items.Arr? then Arr(Unwrapped(items.items))
    else FirstTruthy(seq(|ListKeys|, i requires 0 <= i < |ListKeys| => Get(prediction, ListKeys[i])), Arr([]))
  }

  /** The row read from one transaction (which must not be null or undefined). */
  function RowOf(tx: Json, format: NumberFormat): (r: StatementRow)
    ensures r.date == FirstTruthy(ReadFields(tx, DateKeys), Str(""))
    ensures r.merchant == FirstTruthy(ReadFields(tx, MerchantKeys), Str(""))
    ensures r.amount == FirstPresent(ParseAmounts(tx, AmountKeys, format))
    ensures r.category == FirstTruthy(ReadFields(tx, CategoryKeys), Null)
  {
    StatementRow(
      FirstTruthy(ReadFields(tx, DateKeys), Str("")),
      FirstPresent(ParseAmounts(tx, AmountKeys, format)),
      FirstTruthy(ReadFields(tx, MerchantKeys), Str("")),
      FirstTruthy(ReadFields(tx, CategoryKeys), Null))
  }

  /** The filter: a truthy date, a finite amount and a truthy merchant. */
  predicate Kept(row: StatementRow) {
    Truthy(row.date) && row.amount.Some? && Truthy(row.merchant)
  }

  function KeepRows(rows: seq<StatementRow>): (r: seq<StatementRow>)
    ensures |r| <= |rows|
    ensures forall k :: 0 <= k < |r| ==> Kept(r[k])
  {
    if rows == [] then []
    else if Kept(rows[0]) then [rows[0]] + KeepRows(rows[1..])
    else KeepRows(rows[1..])
  }

  /** Filtering a list is filtering its parts: surviving rows keep their order. */
  lemma {:induction false} KeepRowsAppend(a: seq<StatementRow>, b: seq<StatementRow>)
    ensures KeepRows(a + b) == KeepRows(a) + KeepRows(b)
  {
    if a != [] {
      assert (a + b)[0] == a[0];
      assert (a + b)[1..] == a[1..] + b;
      KeepRowsAppend(a[1..], b);
    } else {
      assert a + b == b;
    }
  }

  /**
   * `extractMindeeRows`; `None` when a transaction is null or undefined, where the
   * route's `tx.date` throws.
   */
  function ExtractRows(data: Json, format: NumberFormat): (r: Option<seq<StatementRow>>)
    ensures !Transactions(Prediction(data)).Arr? ==> r == Some([])
    ensures r.Some? ==> forall k :: 0 <= k < |r.value| ==> Kept(r.value[k])
  {
    RowsOf(Transactions(Prediction(data)), format)
  }

  /** The rows kept from a transaction source; `None` when one transaction is nullish. */
  function RowsOf(txs: Json, format: NumberFormat): (r: Option<seq<StatementRow>>)
    ensures !txs.Arr? ==> r == Some([])
    ensures r.Some? ==> forall k :: 0 <= k < |r.value| ==> Kept(r.value[k])
  {
    if !txs.Arr? then Some([])
    else if exists i :: 0 <= i < |txs.items| && IsNullish(txs.items[i]) then None
    else Some(KeepRows(seq(|txs.items|, i requires 0 <= i < |txs.items| => RowOf(txs.items[i], format))))
  }

  /**
   * Every returned row is read from some transaction of the source and passed the
   * filter, and every transaction whose row passes is returned.
   */
  lemma ExtractedRowsComeFromTransactions(data: Json, format: NumberFormat)
    requires ExtractRows(data, format).Some? && Transactions(Prediction(data)).Arr?
    ensures var rows := ExtractRows(data, format).value;
            var txs := Transactions(Prediction(data)).items;
            (forall k :: 0 <= k < |rows| ==> Kept(rows[k]) && exists i :: 0 <= i < |txs| && rows[k] == RowOf(txs[i], format))
            && (forall i :: 0 <= i < |txs| && Kept(RowOf(txs[i], format)) ==> RowOf(txs[i], format) in rows)
  {
    RowsComeFromItems(Transactions(Prediction(data)), format);
  }

  /** `ExtractedRowsComeFromTransactions` for any transaction array. */
  lemma RowsComeFromItems(txs: Json, format: NumberFormat)
    requires RowsOf(txs, format).Some? && txs.Arr?
    ensures var rows := RowsOf(txs, format).value;
            (forall k :: 0 <= k < |rows| ==> Kept(rows[k]) && exists i :: 0 <= i < |txs.items| && rows[k] == RowOf(txs.items[i], format))
            && (forall i :: 0 <= i < |txs.items| && Kept(RowOf(txs.items[i], format)) ==> RowOf(txs.items[i], format) in rows)
  {
    var items := txs.items;
    var all := seq(|items|, i requires 0 <= i < |items| => RowOf(items[i], format));
    var rows := RowsOf(txs, format).value;
    assert rows == KeepRows(all);
    KeepRowsIndexes(all);
    forall k | 0 <= k < |rows|
      ensures Kept(rows[k]) && exists i :: 0 <= i < |items| && rows[k] == RowOf(items[i], format)
    {
      var i :| 0 <= i < |all| && rows[k] == all[i];
      assert all[i] == RowOf(items[i], format);
    }
    forall i | 0 <= i < |items| && Kept(RowOf(items[i], format)) ensures RowOf(items[i], format) in rows {
      assert all[i] == RowOf(items[i], format);
    }
  }

  /** The filter's result, position by position, comes from its input, and misses no kept row. */
  lemma {:induction false} KeepRowsIndexes(all: seq<StatementRow>)
    ensures forall k :: 0 <= k < |KeepRows(all)| ==>
      Kept(KeepRows(all)[k]) && exists i :: 0 <= i < |all| && KeepRows(all)[k] == all[i]
    ensures forall i :: 0 <= i < |all| && Kept(all[i]) ==> all[i] in KeepRows(all)
  {
    if all != [] {
      var tail := all[1..];
      KeepRowsIndexes(tail);
      var rows := KeepRows(all);
      forall k | 0 <= k < |rows| ensures exists i :: 0 <= i < |all| && rows[k] == all[i] {
        if Kept(all[0]) && k == 0 {
          assert rows[0] == all[0];
        } else {
          var k' := if Kept(all[0]) then k - 1 else k;
          assert rows[k] == KeepRows(tail)[k'];
          var i :| 0 <= i < |tail| && KeepRows(tail)[k'] == tail[i];
          assert rows[k] == all[i + 1];
        }
      }
      forall i | 0 <= i < |all| && Kept(all[i]) ensures all[i] in rows {
        if i > 0 {
          assert all[i] == tail[i - 1];
        }
      }
    }
  }

  /** A null or undefined transaction makes the extraction throw. */
  lemma NullTransactionThrows(data: Json, format: NumberFormat, i: nat)
    requires Transactions(Prediction(data)).Arr?
    requires i < |Transactions(Prediction(data)).items| && IsNullish(Transactions(Prediction(data)).items[i])
    ensures ExtractRows(data, format).None?
  {
  }

  /**
   * The amount chain uses `??`: an `amount` that parses, even to 0, decides and
   * `debit`, `credit` and `value` are not consulted.
   */
  lemma AmountStopsAtFirstParsed(tx: Json, format: NumberFormat)
    requires ParseAmount(ReadField(Get(tx, "amount")), format).Some?
    ensures RowOf(tx, format).amount == ParseAmount(ReadField(Get(tx, "amount")), format)
  {
    assert FirstPresentAt(ParseAmounts(tx, AmountKeys, format), 0);
  }

  /** When `amount` is missing the chain moves on to `debit`, as `??` does. */
  lemma AmountFallsBackToDebit(tx: Json, format: NumberFormat)
    requires ParseAmount(ReadField(Get(tx, "amount")), format).None?
    requires ParseAmount(ReadField(Get(tx, "debit")), format).Some?
    ensures RowOf(tx, format).amount == ParseAmount(ReadField(Get(tx, "debit")), format)
  {
    assert FirstPresentAt(ParseAmounts(tx, AmountKeys, format), 1);
  }

  /**
   * The date chain uses `||`: an empty `date` (or a zero) is skipped in favour of
   * `transaction_date`.
   */
  lemma DateSkipsFalsy(tx: Json)
    requires !Truthy(ReadField(Get(tx, "date"))) && Truthy(ReadField(Get(tx, "transaction_date")))
    ensures RowOf(tx, (n: real) => "").date == ReadField(Get(tx, "transaction_date"))
  {
    assert FirstTruthyAt(ReadFields(tx, DateKeys), 1);
  }

  /** A transaction with no category key of any kind has a null category. */
  lemma CategoryDefaultsToNull(tx: Json, format: NumberFormat)
    requires forall i :: 0 <= i < |CategoryKeys| ==> !Truthy(ReadField(Get(tx, CategoryKeys[i])))
    ensures RowOf(tx, format).category == Null
  {
  }

  /** Rows with a parsed amount of 0 survive the filter: only a missing amount drops a row. */
  lemma ZeroAmountRowIsKept(tx: Json, format: NumberFormat)
    requires ParseAmount(ReadField(Get(tx, "amount")), format) == Some(0.0)
    requires Truthy(RowOf(tx, format).date) && Truthy(RowOf(tx, format).merchant)
    ensures Kept(RowOf(tx, format)) && RowOf(tx, format).amount == Some(0.0)
  {
    AmountStopsAtFirstParsed(tx, format);
  }
}
