/**
 * The receipt route's extraction (app/api/parse-receipt/route.ts): merchant,
 * amount and date are read from the OCR answer through fallback chains, and a
 * receipt with neither a merchant nor an amount is refused.
 */
module ParseReceipt {
  import opened Common
  import opened OcrJson

  /** The parsed receipt; `None` is a null amount. */
  datatype Receipt = Receipt(date: Json, amount: Option<real>, merchant: Json)

  const MerchantKeys: seq<string> := ["merchant_name", "supplier_name", "supplier", "company", "store", "name"]
  const AmountKeys: seq<string> := ["total_amount", "total", "total_amount_incl", "total_amount_excl", "amount"]
  const DateKeys: seq<string> := ["date", "receipt_date", "invoice_date"]

  const NoFieldsDetected := "No receipt fields detected."

  /** `extractReceipt`. */
  function ExtractReceipt(data: Json, format: NumberFormat): (r: Receipt)
    ensures r.merchant == Null || Truthy(r.merchant)
    ensures r.date == Null || Truthy(r.date)
    ensures r.amount.Some? ==> r.amount.value >= 0.0
    ensures forall i :: FirstTruthyAt(ReadFields(Prediction(data), MerchantKeys), i)
              ==> r.merchant == ReadField(Get(Prediction(data), MerchantKeys[i]))
    ensures forall i :: FirstPresentAt(ParseAmounts(Prediction(data), AmountKeys, format), i)
              ==> r.amount == ParseAmount(ReadField(Get(Prediction(data), AmountKeys[i])), format)
    ensures forall i :: FirstTruthyAt(ReadFields(Prediction(data), DateKeys), i)
              ==> r.date == ReadField(Get(Prediction(data), DateKeys[i]))
    ensures (forall i :: 0 <= i < |MerchantKeys| ==> !Truthy(ReadField(Get(Prediction(data), MerchantKeys[i]))))
              ==> r.merchant == Null
    ensures r.amount.None? <==>
              forall i :: 0 <= i < |AmountKeys| ==> ParseAmount(ReadField(Get(Prediction(data), AmountKeys[i])), format).None?
    ensures (forall i :: 0 <= i < |DateKeys| ==> !Truthy(ReadField(Get(Prediction(data), DateKeys[i]))))
              ==> r.date == Null
  {
    var fields := Prediction(data);
    var merchants := ReadFields(fields, MerchantKeys);
    var amounts := ParseAmounts(fields, AmountKeys, format);
    var dates := ReadFields(fields, DateKeys);
    var r := Receipt(FirstTruthy(dates, Null), FirstPresent(amounts), FirstTruthy(merchants, Null));
    FirstTruthyOrFallback(merchants, Null);
    FirstTruthyOrFallback(dates, Null);
    FirstPresentIsOne(amounts);
    r
  }

  /** The first truthy candidate, if there is one, is truthy. */
  lemma FirstTruthyOrFallback(values: seq<Json>, fallback: Json)
    ensures FirstTruthy(values, fallback) == fallback || Truthy(FirstTruthy(values, fallback))
  {
    if exists i :: 0 <= i < |values| && Truthy(values[i]) {
      var i :| 0 <= i < |values| && Truthy(values[i]);
      FirstTruthyExists(values, i);
    }
  }

  lemma {:induction false} FirstTruthyExists(values: seq<Json>, i: int)
    requires 0 <= i < |values| && Truthy(values[i])
    ensures exists k :: FirstTruthyAt(values, k)
    decreases i
  {
    if exists j :: 0 <= j < i && Truthy(values[j]) {
      var j :| 0 <= j < i && Truthy(values[j]);
      FirstTruthyExists(values, j);
    } else {
      assert FirstTruthyAt(values, i);
    }
  }

  /** A present `??` result is one of the candidates. */
  lemma FirstPresentIsOne(values: seq<Option<real>>)
    ensures FirstPresent(values).Some? ==> FirstPresent(values) in values
  {
    if FirstPresent(values).Some? {
      var i :| 0 <= i < |values| && values[i].Some?;
      FirstPresentExists(values, i);
    }
  }

  lemma {:induction false} FirstPresentExists(values: seq<Option<real>>, i: int)
    requires 0 <= i < |values| && values[i].Some?
    ensures exists k :: FirstPresentAt(values, k)
    decreases i
  {
    if exists j :: 0 <= j < i && values[j].Some? {
      var j :| 0 <= j < i && values[j].Some?;
      FirstPresentExists(values, j);
    } else {
      assert FirstPresentAt(values, i);
    }
  }

  /** An amount counts as found only when it is present and not zero. */
  predicate HasAmount(r: Receipt) { r.amount.Some? && r.amount.value != 0.0 }

  /** The route's answer once the OCR result is in: the receipt, or the refusal when no field was found. */
  function ReceiptReply(data: Json, format: NumberFormat): (r: Result<Receipt>)
    ensures r.Err? <==> !Truthy(ExtractReceipt(data, format).merchant) && !HasAmount(ExtractReceipt(data, format))
    ensures r.Err? ==> r.message == NoFieldsDetected
    ensures r.Ok? ==> r.value == ExtractReceipt(data, format)
  {
    var receipt := ExtractReceipt(data, format);
    if !Truthy(receipt.merchant) && !HasAmount(receipt) then Err(NoFieldsDetected) else Ok(receipt)
  }

  /** A total of 0 with no merchant is refused: the route treats the zero as absent. */
  lemma ZeroTotalWithoutMerchantIsRefused(data: Json, format: NumberFormat)
    requires ParseAmount(ReadField(Get(Prediction(data), "total_amount")), format) == Some(0.0)
    requires forall i :: 0 <= i < |MerchantKeys| ==> !Truthy(ReadField(Get(Prediction(data), MerchantKeys[i])))
    ensures ReceiptReply(data, format) == Err(NoFieldsDetected)
  {
    assert FirstPresentAt(ParseAmounts(Prediction(data), AmountKeys, format), 0);
    FirstTruthyOrFallback(ReadFields(Prediction(data), MerchantKeys), Null);
  }

  /** A zero `total_amount` still stops the `??` chain, so a later `total` is never read. */
  lemma ZeroTotalHidesLaterTotals(data: Json, format: NumberFormat)
    requires ParseAmount(ReadField(Get(Prediction(data), "total_amount")), format) == Some(0.0)
    ensures ExtractReceipt(data, format).amount == Some(0.0)
  {
    assert FirstPresentAt(ParseAmounts(Prediction(data), AmountKeys, format), 0);
  }

  /** A merchant alone is enough for the receipt to be accepted. */
  lemma MerchantAloneIsAccepted(data: Json, format: NumberFormat)
    requires Truthy(ReadField(Get(Prediction(data), "merchant_name")))
    ensures ReceiptReply(data, format).Ok?
    ensures ReceiptReply(data, format).value.merchant == ReadField(Get(Prediction(data), "merchant_name"))
  {
    assert FirstTruthyAt(ReadFields(Prediction(data), MerchantKeys), 0);
  }

  /** With no merchant field of any kind, the merchant is null. */
  lemma MerchantDefaultsToNull(data: Json, format: NumberFormat)
    requires forall i :: 0 <= i < |MerchantKeys| ==> !Truthy(ReadField(Get(Prediction(data), MerchantKeys[i])))
    ensures ExtractReceipt(data, format).merchant == Null
  {
  }

  /** With no date field of any kind, the date is null. */
  lemma DateDefaultsToNull(data: Json, format: NumberFormat)
    requires forall i :: 0 <= i < |DateKeys| ==> !Truthy(ReadField(Get(Prediction(data), DateKeys[i])))
    ensures ExtractReceipt(data, format).date == Null
  {
  }

  /** With no total that parses, the amount is null. */
  lemma AmountDefaultsToNull(data: Json, format: NumberFormat)
    requires forall i :: 0 <= i < |AmountKeys| ==> ParseAmount(ReadField(Get(Prediction(data), AmountKeys[i])), format).None?
    ensures ExtractReceipt(data, format).amount.None?
  {
  }

  /** An empty `merchant_name` is skipped for `supplier_name`, as `||` does. */
  lemma EmptyMerchantNameIsSkipped(data: Json, format: NumberFormat)
    requires ReadField(Get(Prediction(data), "merchant_name")) == Str("")
    requires Truthy(ReadField(Get(Prediction(data), "supplier_name")))
    ensures ExtractReceipt(data, format).merchant == ReadField(Get(Prediction(data), "supplier_name"))
  {
    assert FirstTruthyAt(ReadFields(Prediction(data), MerchantKeys), 1);
  }
}
