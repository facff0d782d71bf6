/**
 * The two pure decision helpers of the data-management page: whether a row
 * offers the "acknowledge" action, and how a filter widget's value becomes
 * a query-string parameter.
 *
 * JavaScript values are modelled as far as these helpers can observe them:
 * numbers are integers (no fractions, no NaN), objects are opaque.
 */
module DataManagement {
  import opened Text

  /** A JavaScript value as it arrives from a widget or a JSON row. */
  datatype JsValue =
    | Undefined
    | Null
    | Bool(b: bool)
    | Num(n: int)
    | Str(s: string)
    | Arr(items: seq<JsValue>)
    | Obj

  /** ECMAScript ToBoolean: `undefined`, `null`, `false`, `0` and `""` are falsy. */
  predicate Truthy(v: JsValue)
    ensures !Truthy(v) <==> v in {Undefined, Null, Bool(false), Num(0), Str("")}
  {
    match v
    case Undefined => false
    case Null => false
    case Bool(b) => b
    case Num(n) => n != 0
    case Str(s) => s != ""
    case Arr(_) => true
    case Obj => true
  }

  /** ECMAScript ToString; an array renders as its elements joined with ",". */
  function ToJsString(v: JsValue): (r: string)
    ensures v.Str? ==> r == v.s
    ensures v.Arr? && v.items == [] ==> r == ""
    ensures v.Arr? && |v.items| == 1 ==>
              r == (if v.items[0].Undefined? || v.items[0].Null? then "" else ToJsString(v.items[0]))
    decreases v, 1
  {
    match v
    case Undefined => "undefined"
    case Null => "null"
    case Bool(b) => if b then "true" else "false"
    case Num(n) => IntToDecimal(n)
    case Str(s) => s
    case Arr(items) => Join(ElementStrings(v, items), ',')
    case Obj => "[object Object]"
  }

  /**
   * What `Array.prototype.join` writes for each element: nothing for `null`
   * and `undefined`. `items` is always `whole.items`; the array itself is
   * passed as well so that the mutual recursion with `ToJsString` can be
   * shown to terminate by the size of the array value.
   */
  function ElementStrings(whole: JsValue, items: seq<JsValue>): (r: seq<string>)
    requires whole.Arr? && items == whole.items
    ensures |r| == |items|
    decreases whole, 0
  {
    seq(|items|, i requires 0 <= i < |items| =>
      if items[i].Undefined? || items[i].Null? then "" else ToJsString(items[i]))
  }

  /**
   * A string literal that ECMAScript's ToNumber maps to NaN: it starts with a
   * letter and is not "Infinity". Every literal the page compares against is one.
   */
  predicate NonNumericLiteral(lit: string)
  {
    && |lit| > 0
    && (('a' <= lit[0] <= 'z') || ('A' <= lit[0] <= 'Z'))
    && lit != "Infinity"
  }

  /**
   * ECMAScript's loose equality `v == lit` against a non-numeric string
   * literal: a string compares its text, an array or object compares its
   * string form, and a boolean or number is converted to a number and
   * compared with NaN, which is never equal.
   */
  predicate LooseEqualsText(v: JsValue, lit: string)
    requires NonNumericLiteral(lit)
    ensures LooseEqualsText(v, lit) ==> ToJsString(v) == lit && (v.Str? || v.Arr?)
    ensures v.Str? || v.Arr? ==> (LooseEqualsText(v, lit) <==> ToJsString(v) == lit)
  {
    match v
    case Str(s) => s == lit
    case Arr(_) => ToJsString(v) == lit
    case Obj => "[object Object]" == lit
    case _ => false
  }

  /** The fields of a result row that the acknowledge rule reads. */
  datatype RowData = RowData(sigprocKeep: JsValue, sigprocState: JsValue)

  /** The signal-processing states in which an acknowledgement is offered. */
  const AckStates: set<string> := {"Notified", "Selected", "Acknowledged"}

  /** `show_ack`: offer the acknowledge action unless the row is kept. */
  function ShowAck(data: RowData): (r: bool)
    ensures LooseEqualsText(data.sigprocKeep, "true") ==> !r
    ensures r ==> data.sigprocState.Str? || data.sigprocState.Arr?
    ensures !LooseEqualsText(data.sigprocKeep, "true") && data.sigprocState.Str? ==>
              (r <==> data.sigprocState.s in AckStates)
  {
    if LooseEqualsText(data.sigprocKeep, "true") then false
    else if LooseEqualsText(data.sigprocState, "Notified")
         || LooseEqualsText(data.sigprocState, "Selected")
         || LooseEqualsText(data.sigprocState, "Acknowledged") then true
    else false
  }

  /**
   * For rows whose fields are plain strings: the action is offered exactly
   * when the keep flag is not the string "true" and the state is one of the
   * three acknowledgeable states.
   */
  lemma ShowAckOnStrings(keep: string, state: string)
    ensures ShowAck(RowData(Str(keep), Str(state))) <==> keep != "true" && state in AckStates
  {
  }

  /** A string keep flag of "true" hides the action whatever the state. */
  lemma KeepHidesAck(state: JsValue)
    ensures !ShowAck(RowData(Str("true"), state))
  {
  }

  /**
   * Only the string "true" (or a value whose string form it is) suppresses the
   * action: a JSON boolean `true` keep flag compares as a number with NaN and
   * does not.
   */
  lemma BooleanKeepDoesNotHide(state: string)
    ensures ShowAck(RowData(Bool(true), Str(state))) <==> state in AckStates
  {
  }

  /** A one-element array whose element is "true" compares equal to "true" and also hides the action. */
  lemma SingletonArrayKeepHides(state: JsValue)
    ensures !ShowAck(RowData(Arr([Str("true")]), state))
  {
    var v := Arr([Str("true")]);
    assert ElementStrings(v, v.items) == ["true"];
  }

  /**
   * `_get_query_string`: a falsy value becomes "", an array its elements
   * joined with ",", and any other value passes through.
   */
  function GetQueryString(val: JsValue): (r: JsValue)
    ensures !r.Arr?
    ensures !Truthy(val) ==> r == Str("")
    ensures Truthy(val) && !val.Arr? ==> r == val
    ensures val.Arr? ==> r == Str(Join(ElementStrings(val, val.items), ','))
  {
    var v := if Truthy(val) then val else Str("");
    if v.Arr? then Str(ToJsString(v)) else v
  }

  /** Flattening is idempotent: a flattened value flattens to itself. */
  lemma GetQueryStringIdempotent(val: JsValue)
    ensures GetQueryString(GetQueryString(val)) == GetQueryString(val)
  {
  }

  /** The strings of a list, as JavaScript string values. */
  function StrValues(strs: seq<string>): (r: seq<JsValue>)
    ensures |r| == |strs|
    ensures forall k :: 0 <= k < |r| ==> r[k] == Str(strs[k])
  {
    seq(|strs|, k requires 0 <= k < |strs| => Str(strs[k]))
  }

  /**
   * A multi-select's selection of comma-free strings survives the trip through
   * the query string: splitting the flattened value at "," gives the selection back.
   */
  lemma QueryStringSplitsBack(strs: seq<string>)
    requires |strs| >= 1
    requires forall k :: 0 <= k < |strs| ==> ',' !in strs[k]
    ensures GetQueryString(Arr(StrValues(strs))).Str?
    ensures Split(GetQueryString(Arr(StrValues(strs))).s, ',') == strs
  {
    var v := Arr(StrValues(strs));
    assert ElementStrings(v, v.items) == strs;
    SplitJoin(strs, ',');
  }
}
