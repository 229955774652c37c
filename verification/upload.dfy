/** The query strings `stock_factor_upload` and `data_series_upload` append
    to their upload URLs: every option the caller gave, in a fixed order, as
    `key=value`, joined with "&" and prefixed with "?" — or nothing at all
    when no option was given. */
module Upload {
  import opened Http
  import opened Text

  datatype Param = Param(key: string, value: string)

  /** One option of an upload call: the query key it is sent under and its
      rendered value, `None` when the caller left it out. */
  datatype Slot = Slot(key: string, value: Option<string>)

  /** The `get_params` list: one `key=value` per given option, appended in
      slot order. */
  function Given(slots: seq<Slot>): (ps: seq<Param>)
    ensures |ps| <= |slots|
  {
    if |slots| == 0 then []
    else
      var last := slots[|slots| - 1];
      Given(slots[..|slots| - 1]) + (if last.value.Some? then [Param(last.key, last.value.value)] else [])
  }

  function Render(p: Param): string {
    p.key + "=" + p.value
  }

  function RenderAll(ps: seq<Param>): (parts: seq<string>)
    ensures |parts| == |ps|
  {
    seq(|ps|, i requires 0 <= i < |ps| => Render(ps[i]))
  }

  /** `"?" + "&".join(get_params) if len(get_params) else ""`. */
  function QueryString(ps: seq<Param>): (q: string)
    ensures q == "" <==> |ps| == 0
    ensures |ps| > 0 ==> q[0] == '?'
  {
    if |ps| == 0 then "" else "?" + Join(RenderAll(ps), '&')
  }

  /** A boolean option as sent: `yes` for true, `no` for false. The
      `ignore_*` options use "continue" / "stop"; `headerRow` is Python's
      `str(bool)`, "True" / "False". */
  function Flag(b: Option<bool>, yes: string, no: string): Option<string> {
    if b.None? then None else if b.value then Some(yes) else Some(no)
  }

  const ColumnSeparatorKey := "columnSeparator"
  const ExistingDataKey := "existingData"
  const DateFormatKey := "dateFormat"
  const DecimalSeparatorKey := "decimalSeparator"
  const OnErrorKey := "onError"
  const OnDuplicatesKey := "onDuplicates"
  const HeaderRowKey := "headerRow"

  /** The order `stock_factor_upload` emits its options in. */
  const StockFactorKeys := [ColumnSeparatorKey, ExistingDataKey, DateFormatKey, DecimalSeparatorKey, OnErrorKey, OnDuplicatesKey]
  /** The order `data_series_upload` emits its options in. */
  const DataSeriesKeys := [ExistingDataKey, DateFormatKey, DecimalSeparatorKey, OnErrorKey, OnDuplicatesKey, HeaderRowKey]

  /** The slots of an upload call: keys paired with the values given. */
  function Slots(keys: seq<string>, values: seq<Option<string>>): (slots: seq<Slot>)
    requires |keys| == |values|
    ensures |slots| == |keys|
    ensures forall k :: 0 <= k < |slots| ==> slots[k] == Slot(keys[k], values[k])
  {
    seq(|keys|, k requires 0 <= k < |keys| => Slot(keys[k], values[k]))
  }

  /** The optional arguments of `stock_factor_upload`. */
  datatype StockFactorUpload = StockFactorUpload(
    columnSeparator: Option<string>,
    existingData: Option<string>,
    dateFormat: Option<string>,
    decimalSeparator: Option<string>,
    ignoreErrors: Option<bool>,
    ignoreDuplicates: Option<bool>)

  /** The optional arguments of `data_series_upload`. */
  datatype DataSeriesUpload = DataSeriesUpload(
    existingData: Option<string>,
    dateFormat: Option<string>,
    decimalSeparator: Option<string>,
    ignoreErrors: Option<bool>,
    ignoreDuplicates: Option<bool>,
    containsHeaderRow: Option<bool>)

  function StockFactorValues(o: StockFactorUpload): seq<Option<string>> {
    [ o.columnSeparator, o.existingData, o.dateFormat, o.decimalSeparator,
      Flag(o.ignoreErrors, "continue", "stop"), Flag(o.ignoreDuplicates, "continue", "stop") ]
  }

  function DataSeriesValues(o: DataSeriesUpload): seq<Option<string>> {
    [ o.existingData, o.dateFormat, o.decimalSeparator,
      Flag(o.ignoreErrors, "continue", "stop"), Flag(o.ignoreDuplicates, "continue", "stop"),
      Flag(o.containsHeaderRow, "True", "False") ]
  }

  /** The query string of `stock_factor_upload`: empty exactly when no
      option is given, and otherwise starting with "?". */
  function StockFactorQuery(o: StockFactorUpload): (q: string)
    ensures q == "" <==> o == StockFactorUpload(None, None, None, None, None, None)
    ensures q != "" ==> q[0] == '?'
  {
    StockFactorNothingGiven(o);
    QueryString(Given(Slots(StockFactorKeys, StockFactorValues(o))))
  }

  /** The query string of `data_series_upload`: empty exactly when no option
      is given, and otherwise starting with "?". */
  function DataSeriesQuery(o: DataSeriesUpload): (q: string)
    ensures q == "" <==> o == DataSeriesUpload(None, None, None, None, None, None)
    ensures q != "" ==> q[0] == '?'
  {
    DataSeriesNothingGiven(o);
    QueryString(Given(Slots(DataSeriesKeys, DataSeriesValues(o))))
  }

  // ---------------------------------------------------------------------
  // What `Given` emits: exactly the given slots, in slot order.

  /** Indices of the slots that hold a value, ascending. */
  function GivenIndices(slots: seq<Slot>): (ix: seq<nat>)
    ensures forall i :: 0 <= i < |ix| ==> ix[i] < |slots| && slots[ix[i]].value.Some?
    ensures forall i, j :: 0 <= i < j < |ix| ==> ix[i] < ix[j]
    ensures forall k :: 0 <= k < |slots| && slots[k].value.Some? ==> k in ix
  {
    if |slots| == 0 then []
    else
      var n := |slots| - 1;
      var pre := GivenIndices(slots[..n]);
      assert forall k :: 0 <= k < n && slots[k].value.Some? ==> slots[..n][k] == slots[k];
      pre + (if slots[n].value.Some? then [n] else [])
  }

  /** `Given` emits one parameter per given slot, in slot order, and nothing
      else. */
  lemma {:induction false} GivenExactly(slots: seq<Slot>)
    ensures |Given(slots)| == |GivenIndices(slots)|
    ensures forall i :: 0 <= i < |Given(slots)| ==>
      var k := GivenIndices(slots)[i];
      Given(slots)[i] == Param(slots[k].key, slots[k].value.value)
  {
    if |slots| > 0 {
      var n := |slots| - 1;
      GivenExactly(slots[..n]);
      assert forall k :: 0 <= k < n ==> slots[..n][k] == slots[k];
    }
  }

  lemma GivenEmpty(slots: seq<Slot>)
    ensures Given(slots) == [] <==> forall k :: 0 <= k < |slots| ==> slots[k].value.None?
  {
    GivenExactly(slots);
    if Given(slots) == [] {
      forall k | 0 <= k < |slots|
        ensures slots[k].value.None?
      {
      }
    }
  }

  lemma StockFactorNothingGiven(o: StockFactorUpload)
    ensures Given(Slots(StockFactorKeys, StockFactorValues(o))) == [] <==> o == StockFactorUpload(None, None, None, None, None, None)
  {
    var slots := Slots(StockFactorKeys, StockFactorValues(o));
    GivenEmpty(slots);
    if forall k :: 0 <= k < |slots| ==> slots[k].value.None? {
      assert slots[0].value.None? && slots[1].value.None? && slots[2].value.None?;
      assert slots[3].value.None? && slots[4].value.None? && slots[5].value.None?;
    }
  }

  lemma DataSeriesNothingGiven(o: DataSeriesUpload)
    ensures Given(Slots(DataSeriesKeys, DataSeriesValues(o))) == [] <==> o == DataSeriesUpload(None, None, None, None, None, None)
  {
    var slots := Slots(DataSeriesKeys, DataSeriesValues(o));
    GivenEmpty(slots);
    if forall k :: 0 <= k < |slots| ==> slots[k].value.None? {
      assert slots[0].value.None? && slots[1].value.None? && slots[2].value.None?;
      assert slots[3].value.None? && slots[4].value.None? && slots[5].value.None?;
    }
  }

  // ---------------------------------------------------------------------
  // Reading a query string back.

  /** `key=value` split at the first "=". */
  function ParseParam(s: string): Option<Param> {
    if '=' in s then
      var i := IndexOf(s, '=');
      Some(Param(s[..i], s[i + 1..]))
    else None
  }

  function ParseAll(parts: seq<string>): Option<seq<Param>> {
    if |parts| == 0 then Some([])
    else
      match ParseParam(parts[0])
      case None => None
      case Some(p) =>
        match ParseAll(parts[1..])
        case None => None
        case Some(rest) => Some([p] + rest)
  }

  function ParseQuery(q: string): Option<seq<Param>> {
    if q == "" then Some([])
    else if q[0] != '?' then None
    else ParseAll(Split(q[1..], '&'))
  }

  /** The value of `key`, the last occurrence winning as in a `dict`. */
  function Lookup(ps: seq<Param>, key: string): Option<string> {
    if |ps| == 0 then None
    else if ps[|ps| - 1].key == key then Some(ps[|ps| - 1].value)
    else Lookup(ps[..|ps| - 1], key)
  }

  /** The inverse of `Flag`. */
  function DecodeFlag(v: Option<string>, yes: string, no: string): Option<Option<bool>> {
    if v.None? then Some(None)
    else if v.value == yes then Some(Some(true))
    else if v.value == no then Some(Some(false))
    else None
  }

  function DecodeStockFactor(q: string): Option<StockFactorUpload> {
    match ParseQuery(q)
    case None => None
    case Some(ps) =>
      var onError := DecodeFlag(Lookup(ps, OnErrorKey), "continue", "stop");
      var onDuplicates := DecodeFlag(Lookup(ps, OnDuplicatesKey), "continue", "stop");
      if onError.None? || onDuplicates.None? then None
      else Some(StockFactorUpload(Lookup(ps, ColumnSeparatorKey), Lookup(ps, ExistingDataKey),
                                  Lookup(ps, DateFormatKey), Lookup(ps, DecimalSeparatorKey),
                                  onError.value, onDuplicates.value))
  }

  function DecodeDataSeries(q: string): Option<DataSeriesUpload> {
    match ParseQuery(q)
    case None => None
    case Some(ps) =>
      var onError := DecodeFlag(Lookup(ps, OnErrorKey), "continue", "stop");
      var onDuplicates := DecodeFlag(Lookup(ps, OnDuplicatesKey), "continue", "stop");
      var headerRow := DecodeFlag(Lookup(ps, HeaderRowKey), "True", "False");
      if onError.None? || onDuplicates.None? || headerRow.None? then None
      else Some(DataSeriesUpload(Lookup(ps, ExistingDataKey), Lookup(ps, DateFormatKey),
                                 Lookup(ps, DecimalSeparatorKey),
                                 onError.value, onDuplicates.value, headerRow.value))
  }

  predicate DistinctKeys(slots: seq<Slot>) {
    forall i, j :: 0 <= i < j < |slots| ==> slots[i].key != slots[j].key
  }

  lemma ParseRender(p: Param)
    requires '=' !in p.key
    ensures ParseParam(Render(p)) == Some(p)
  {
    IndexOfAfterPrefix(p.key, '=', p.value);
    var s := Render(p);
    assert s == p.key + ['='] + p.value;
    assert s[..|p.key|] == p.key;
    assert s[|p.key| + 1..] == p.value;
  }

  lemma {:induction false} ParseAllRender(ps: seq<Param>)
    requires forall i :: 0 <= i < |ps| ==> '=' !in ps[i].key
    ensures ParseAll(RenderAll(ps)) == Some(ps)
  {
    if |ps| > 0 {
      ParseRender(ps[0]);
      assert RenderAll(ps)[1..] == RenderAll(ps[1..]);
      ParseAllRender(ps[1..]);
      assert [ps[0]] + ps[1..] == ps;
    }
  }

  /** Reading back a query string recovers its parameters when no key holds
      "=" or "&" and no value holds "&". */
  lemma ParseQueryString(ps: seq<Param>)
    requires forall i :: 0 <= i < |ps| ==> '=' !in ps[i].key && '&' !in ps[i].key && '&' !in ps[i].value
    ensures ParseQuery(QueryString(ps)) == Some(ps)
  {
    if |ps| > 0 {
      var parts := RenderAll(ps);
      forall k | 0 <= k < |parts|
        ensures '&' !in parts[k]
      {
        assert parts[k] == ps[k].key + "=" + ps[k].value;
      }
      SplitJoin(parts, '&');
      var q := QueryString(ps);
      assert q[1..] == Join(parts, '&');
      ParseAllRender(ps);
    }
  }

  lemma {:induction false} LookupAbsent(slots: seq<Slot>, key: string)
    requires forall k :: 0 <= k < |slots| ==> slots[k].key != key
    ensures Lookup(Given(slots), key) == None
  {
    if |slots| > 0 {
      var n := |slots| - 1;
      var pre := Given(slots[..n]);
      LookupAbsent(slots[..n], key);
      if slots[n].value.Some? {
        assert (pre + [Param(slots[n].key, slots[n].value.value)])[..|pre|] == pre;
      } else {
        assert pre + [] == pre;
      }
    }
  }

  /** With distinct keys, the emitted parameters hold each slot's value under
      its key. */
  lemma {:induction false} LookupGiven(slots: seq<Slot>)
    requires DistinctKeys(slots)
    ensures forall k :: 0 <= k < |slots| ==> Lookup(Given(slots), slots[k].key) == slots[k].value
  {
    if |slots| > 0 {
      var n := |slots| - 1;
      var pre := Given(slots[..n]);
      var ps := Given(slots);
      LookupGiven(slots[..n]);
      forall k | 0 <= k < |slots|
        ensures Lookup(ps, slots[k].key) == slots[k].value
      {
        if slots[n].value.Some? {
          assert ps[..|pre|] == pre;
        } else {
          assert ps == pre;
        }
        if k == n && slots[n].value.None? {
          LookupAbsent(slots[..n], slots[n].key);
        } else if k < n {
          assert slots[..n][k] == slots[k];
        }
      }
    }
  }

  lemma DecodeFlagRender(b: Option<bool>, yes: string, no: string)
    requires yes != no
    ensures DecodeFlag(Flag(b, yes, no), yes, no) == Some(b)
  {
  }

  /** Keys fit for a query string: pairwise distinct, and free of "=" and "&". */
  predicate QueryKeys(keys: seq<string>) {
    && (forall i, j :: 0 <= i < j < |keys| ==> keys[i] != keys[j])
    && (forall k :: 0 <= k < |keys| ==> '=' !in keys[k] && '&' !in keys[k])
  }

  lemma UploadKeysFit()
    ensures QueryKeys(StockFactorKeys) && QueryKeys(DataSeriesKeys)
  {
  }

  /** Reading back the query string built from some slots gives each key the
      value its slot holds. */
  lemma SlotsRoundTrip(keys: seq<string>, values: seq<Option<string>>)
    requires |keys| == |values| && QueryKeys(keys)
    requires forall k :: 0 <= k < |values| && values[k].Some? ==> '&' !in values[k].value
    ensures ParseQuery(QueryString(Given(Slots(keys, values)))).Some?
    ensures forall k :: 0 <= k < |keys| ==>
      Lookup(ParseQuery(QueryString(Given(Slots(keys, values)))).value, keys[k]) == values[k]
  {
    var slots := Slots(keys, values);
    var ps := Given(slots);
    GivenExactly(slots);
    forall i | 0 <= i < |ps|
      ensures '=' !in ps[i].key && '&' !in ps[i].key && '&' !in ps[i].value
    {
      var k := GivenIndices(slots)[i];
      assert ps[i] == Param(keys[k], values[k].value);
    }
    ParseQueryString(ps);
    LookupGiven(slots);
  }

  /** Reading back the query string of `stock_factor_upload` gives back the
      options it was built from, when no string option contains "&". */
  lemma StockFactorRoundTrip(o: StockFactorUpload)
    requires forall k :: 0 <= k < 4 && StockFactorValues(o)[k].Some? ==> '&' !in StockFactorValues(o)[k].value
    ensures DecodeStockFactor(StockFactorQuery(o)) == Some(o)
  {
    var values := StockFactorValues(o);
    UploadKeysFit();
    SlotsRoundTrip(StockFactorKeys, values);
    var ps := ParseQuery(StockFactorQuery(o)).value;
    assert Lookup(ps, StockFactorKeys[4]) == values[4];
    assert Lookup(ps, StockFactorKeys[5]) == values[5];
    DecodeFlagRender(o.ignoreErrors, "continue", "stop");
    DecodeFlagRender(o.ignoreDuplicates, "continue", "stop");
    assert Lookup(ps, StockFactorKeys[0]) == values[0];
    assert Lookup(ps, StockFactorKeys[1]) == values[1];
    assert Lookup(ps, StockFactorKeys[2]) == values[2];
    assert Lookup(ps, StockFactorKeys[3]) == values[3];
  }

  /** Reading back the query string of `data_series_upload` gives back the
      options it was built from, when no string option contains "&". */
  lemma DataSeriesRoundTrip(o: DataSeriesUpload)
    requires forall k :: 0 <= k < 3 && DataSeriesValues(o)[k].Some? ==> '&' !in DataSeriesValues(o)[k].value
    ensures DecodeDataSeries(DataSeriesQuery(o)) == Some(o)
  {
    var values := DataSeriesValues(o);
    UploadKeysFit();
    SlotsRoundTrip(DataSeriesKeys, values);
    var ps := ParseQuery(DataSeriesQuery(o)).value;
    assert Lookup(ps, DataSeriesKeys[0]) == values[0];
    assert Lookup(ps, DataSeriesKeys[1]) == values[1];
    assert Lookup(ps, DataSeriesKeys[2]) == values[2];
    assert Lookup(ps, DataSeriesKeys[3]) == values[3];
    assert Lookup(ps, DataSeriesKeys[4]) == values[4];
    assert Lookup(ps, DataSeriesKeys[5]) == values[5];
    DecodeFlagRender(o.ignoreErrors, "continue", "stop");
    DecodeFlagRender(o.ignoreDuplicates, "continue", "stop");
    DecodeFlagRender(o.containsHeaderRow, "True", "False");
  }
}
