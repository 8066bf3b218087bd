/**
 * The JSON the OCR service answers with, and the helpers both parse routes
 * (app/api/parse-statement/route.ts, app/api/parse-receipt/route.ts) apply to
 * it: property access, `readField`, JavaScript truthiness, the `||` and `??`
 * fallback chains and `parseAmount`.
 */
module OcrJson {
  import opened Common
  import opened Text
  import opened Amounts

  /** A JavaScript value as `JSON.parse` builds it, plus `undefined` for a missing property. */
  datatype Json =
    | Undefined
    | Null
    | Bool(b: bool)
    | Num(n: real)
    | Str(s: string)
    | Arr(items: seq<Json>)
    | Obj(fields: map<string, Json>)

  /**
   * `String(n)` for a finite number, left uninterpreted: the shortest decimal
   * that reads back as `n`, possibly in exponent form.
   */
  type NumberFormat = real -> string

  /** `value?.key`: the property of an object, `undefined` on anything else. */
  function Get(value: Json, key: string): (r: Json)
    ensures !value.Obj? ==> r == Undefined
    ensures value.Obj? && key in value.fields ==> r == value.fields[key]
    ensures value.Obj? && key !in value.fields ==> r == Undefined
  {
    match value
    case Obj(fields) => if key in fields then fields[key] else Undefined
    case _ => Undefined
  }

  /** `value?.k1?.k2?. ...` */
  function Path(value: Json, keys: seq<string>): Json
    decreases |keys|
  {
    if keys == [] then value else Path(Get(value, keys[0]), keys[1..])
  }

  /** JavaScript truthiness: `undefined`, `null`, `false`, `0` and `""` are falsy. */
  predicate Truthy(value: Json) {
    match value
    case Undefined => false
    case Null => false
    case Bool(b) => b
    case Num(n) => n != 0.0
    case Str(s) => s != ""
    case Arr(_) => true
    case Obj(_) => true
  }

  predicate IsNullish(value: Json) { value.Undefined? || value.Null? }

  /**
   * `readField`: `null` for null or undefined; a string or number as it is; otherwise
   * the field's `value` if defined, else its `raw` if defined, else `null`.
   */
  function ReadField(field: Json): (r: Json)
    ensures r != Undefined
    ensures IsNullish(field) ==> r == Null
    ensures field.Str? || field.Num? ==> r == field
    ensures !IsNullish(field) && !field.Str? && !field.Num? && Get(field, "value") != Undefined
            ==> r == Get(field, "value")
    ensures (!IsNullish(field) && !field.Str? && !field.Num? && Get(field, "value") == Undefined
             && Get(field, "raw") != Undefined) ==> r == Get(field, "raw")
    ensures (!IsNullish(field) && !field.Str? && !field.Num? && Get(field, "value") == Undefined
             && Get(field, "raw") == Undefined) ==> r == Null
  {
    if IsNullish(field) then Null
    else if field.Str? || field.Num? then field
    else if Get(field, "value") != Undefined then Get(field, "value")
    else if Get(field, "raw") != Undefined then Get(field, "raw")
    else Null
  }

  /** Candidate `i` is the first truthy one. */
  predicate FirstTruthyAt(values: seq<Json>, i: int) {
    0 <= i < |values| && Truthy(values[i]) && forall j :: 0 <= j < i ==> !Truthy(values[j])
  }

  /** `v0 || v1 || ... || fallback`: the first truthy candidate, else the fallback. */
  function FirstTruthy(values: seq<Json>, fallback: Json): (r: Json)
    ensures (forall i :: 0 <= i < |values| ==> !Truthy(values[i])) ==> r == fallback
    ensures forall i :: FirstTruthyAt(values, i) ==> r == values[i]
  {
    if values == [] then fallback
    else if Truthy(values[0]) then values[0]
    else
      assert forall i :: FirstTruthyAt(values, i) ==> FirstTruthyAt(values[1..], i - 1);
      FirstTruthy(values[1..], fallback)
  }

  /** Candidate `i` is the first one that is not null. */
  predicate FirstPresentAt<T>(values: seq<Option<T>>, i: int) {
    0 <= i < |values| && values[i].Some? && forall j :: 0 <= j < i ==> values[j].None?
  }

  /** `v0 ?? v1 ?? ... ?? null`: the first candidate that is not null, even a zero. */
  function FirstPresent<T>(values: seq<Option<T>>): (r: Option<T>)
    ensures r.None? <==> forall i :: 0 <= i < |values| ==> values[i].None?
    ensures forall i :: FirstPresentAt(values, i) ==> r == values[i]
  {
    if values == [] then None
    else if values[0].Some? then values[0]
    else
      assert forall i :: FirstPresentAt(values, i) ==> FirstPresentAt(values[1..], i - 1);
      FirstPresent(values[1..])
  }

  /** `Array.prototype.join(',')`. */
  function Join(parts: seq<string>): string {
    if parts == [] then "" else if |parts| == 1 then parts[0] else parts[0] + "," + Join(parts[1..])
  }

  /**
   * `String(value)`. Numbers go through the uninterpreted format; an array joins
   * its elements with commas, writing null and undefined elements as "".
   */
  function JsString(value: Json, format: NumberFormat): string
    decreases value
  {
    match value
    case Undefined => "undefined"
    case Null => "null"
    case Bool(b) => if b then "true" else "false"
    case Num(n) => format(n)
    case Str(s) => s
    case Arr(items) =>
      Join(seq(|items|, i requires 0 <= i < |items| =>
        if IsNullish(items[i]) then "" else JsString(items[i], format)))
    case Obj(_) => "[object Object]"
  }

  /**
   * `parseAmount`: null for null or undefined; otherwise `String(value)` keeps only
   * digits, '.' and '-', and the absolute value of its `parseFloat` is the amount,
   * or null when that is NaN.
   */
  function ParseAmount(value: Json, format: NumberFormat): (r: Option<real>)
    ensures r.Some? ==> r.value >= 0.0
    ensures IsNullish(value) ==> r.None?
    ensures value.Str? ==> r == ParseAmountText(value.s)
  {
    if IsNullish(value) then None else ParseAmountText(JsString(value, format))
  }

  /** Text with no digit, point or minus sign reads as NaN. */
  lemma {:induction false} NoAmountCharsIsNaN(s: string)
    requires forall i :: 0 <= i < |s| ==> !AmountChar(s[i])
    ensures ParseAmountText(s) == None
  {
    NothingKept(s);
  }

  lemma {:induction false} NothingKept(s: string)
    requires forall i :: 0 <= i < |s| ==> !AmountChar(s[i])
    ensures CleanAmountText(s) == ""
  {
    if s != [] {
      assert s == [s[0]] + s[1..];
      CleanAppend([s[0]], s[1..]);
      NothingKept(s[1..]);
    }
  }

  /** A boolean or an object never yields an amount: its string has no digit. */
  lemma BooleanAndObjectHaveNoAmount(value: Json, format: NumberFormat)
    requires value.Bool? || value.Obj?
    ensures ParseAmount(value, format) == None
  {
    var s := JsString(value, format);
    if value.Bool? && value.b {
      assert s == "true";
    } else if value.Bool? {
      assert s == "false";
    } else {
      assert s == "[object Object]";
    }
    forall i | 0 <= i < |s| ensures !AmountChar(s[i]) {
      assert s[i] == '[' || s[i] == ']' || s[i] == ' ' || IsLowerLetter(s[i]) || s[i] == 'O';
    }
    NoAmountCharsIsNaN(s);
  }

  /** A money figure written as text, with no digit before it and nothing numeric after it, is read exactly. */
  lemma ParseMoneyField(pre: string, n: nat, cents: nat, post: string, format: NumberFormat)
    requires cents < 100
    requires CleanAmountText(pre) == "" || CleanAmountText(pre) == "-"
    requires CleanAmountText(post) == ""
    ensures ParseAmount(Str(pre + Money(n, cents) + post), format) == Some(n as real + cents as real / 100.0)
  {
    ParseMoney(pre, n, cents, post);
  }

  /** Where the OCR answer holds its fields: `document.inference.prediction`, else `inference.result.fields`, else `{}`. */
  function Prediction(data: Json): (r: Json)
    ensures Truthy(r)
    ensures Truthy(Path(data, ["document", "inference", "prediction"])) ==> r == Path(data, ["document", "inference", "prediction"])
    ensures !Truthy(Path(data, ["document", "inference", "prediction"])) && Truthy(Path(data, ["inference", "result", "fields"]))
            ==> r == Path(data, ["inference", "result", "fields"])
    ensures !Truthy(Path(data, ["document", "inference", "prediction"])) && !Truthy(Path(data, ["inference", "result", "fields"]))
            ==> r == Obj(map[])
  {
    var sources := [Path(data, ["document", "inference", "prediction"]), Path(data, ["inference", "result", "fields"])];
    assert FirstTruthyAt(sources, 0) || FirstTruthyAt(sources, 1) || (!Truthy(sources[0]) && !Truthy(sources[1]));
    FirstTruthy(sources, Obj(map[]))
  }

  /** `readField(value?.[key])` for each key in order. */
  function ReadFields(value: Json, keys: seq<string>): (r: seq<Json>)
    ensures |r| == |keys|
    ensures forall i :: 0 <= i < |keys| ==> r[i] == ReadField(Get(value, keys[i]))
  {
    seq(|keys|, i requires 0 <= i < |keys| => ReadField(Get(value, keys[i])))
  }

  /** `parseAmount(readField(value?.[key]))` for each key in order. */
  function ParseAmounts(value: Json, keys: seq<string>, format: NumberFormat): (r: seq<Option<real>>)
    ensures |r| == |keys|
    ensures forall i :: 0 <= i < |keys| ==> r[i] == ParseAmount(ReadField(Get(value, keys[i])), format)
  {
    seq(|keys|, i requires 0 <= i < |keys| => ParseAmount(ReadField(Get(value, keys[i])), format))
  }
}
