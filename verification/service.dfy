/** The prediction endpoint: parse the form, build the single-row frame,
    one-hot encode the city against the fixed city list, align the row
    with the training column layout, and call the model. Every failure on
    the way becomes an error result instead of a prediction. */
module Service {
  import opened Wrappers
  import opened Frame

  /** The city list the endpoint encodes against, in loop order. */
  const Cities: seq<string> := ["Islamabad", "Karachi", "Lahore", "Rawalpindi"]

  /** `f"city_{c}"`. */
  function IndicatorName(c: string): string {
    "city_" + c
  }

  /** `1 if city == c else 0`; an absent city (`None`) matches nothing. */
  function Indicator(city: Option<string>, c: string): (v: Value)
    ensures v == Int(1) <==> city == Some(c)
    ensures v == Int(0) <==> city != Some(c)
  {
    Int(if city == Some(c) then 1 else 0)
  }

  /** The form fields, as `request.form` holds them. */
  type Form = map<string, string>

  /** `request.form.get(key)`. */
  function Get(form: Form, key: string): (r: Option<string>)
    ensures r.Some? <==> key in form
    ensures r.Some? ==> r.value == form[key]
  {
    if key in form then Some(form[key]) else None
  }

  datatype Inputs = Inputs(area: real, bedrooms: int, baths: int, city: Option<string>)

  /** What the endpoint's catch-all turns into an error message. */
  datatype PredictError =
    | MissingFloat(field: string)
    | MissingInt(field: string)
    | NotAFloat(text: string)
    | NotAnInt(text: string)
    | ModelError(message: string)

  /** `float(request.form.get(key))`: `None` makes `float` raise. */
  function FloatField(toFloat: string -> Option<real>, form: Form, key: string): (r: Result<real, PredictError>)
    ensures key !in form ==> r == Failure(MissingFloat(key))
    ensures key in form ==> (r.Success? <==> toFloat(form[key]).Some?)
    ensures key in form && r.Success? ==> r.value == toFloat(form[key]).value
    ensures key in form && r.Failure? ==> r.error == NotAFloat(form[key])
  {
    match Get(form, key)
    case None => Failure(MissingFloat(key))
    case Some(text) =>
      match toFloat(text)
      case None => Failure(NotAFloat(text))
      case Some(x) => Success(x)
  }

  /** `int(request.form.get(key))`. */
  function IntField(toInt: string -> Option<int>, form: Form, key: string): (r: Result<int, PredictError>)
    ensures key !in form ==> r == Failure(MissingInt(key))
    ensures key in form ==> (r.Success? <==> toInt(form[key]).Some?)
    ensures key in form && r.Success? ==> r.value == toInt(form[key]).value
    ensures key in form && r.Failure? ==> r.error == NotAnInt(form[key])
  {
    match Get(form, key)
    case None => Failure(MissingInt(key))
    case Some(text) =>
      match toInt(text)
      case None => Failure(NotAnInt(text))
      case Some(n) => Success(n)
  }

  /** Lines that read the form: area, then bedrooms, then baths (the first
      failure is the one reported), and the city as given, possibly absent. */
  function ParseForm(toFloat: string -> Option<real>, toInt: string -> Option<int>, form: Form)
    : (r: Result<Inputs, PredictError>)
    ensures r.Success? <==>
              && FloatField(toFloat, form, "area").Success?
              && IntField(toInt, form, "bedrooms").Success?
              && IntField(toInt, form, "baths").Success?
    ensures r.Success? ==> r.value == Inputs(FloatField(toFloat, form, "area").value,
                                             IntField(toInt, form, "bedrooms").value,
                                             IntField(toInt, form, "baths").value,
                                             Get(form, "city"))
  {
    var area :- FloatField(toFloat, form, "area");
    var bedrooms :- IntField(toInt, form, "bedrooms");
    var baths :- IntField(toInt, form, "baths");
    Success(Inputs(area, bedrooms, baths, Get(form, "city")))
  }

  /** The one-row frame built from the parsed inputs, before encoding. */
  function InputRow(inputs: Inputs): Row
  {
    [ Entry("area", Float(inputs.area)),
      Entry("bedrooms", Int(inputs.bedrooms)),
      Entry("baths", Int(inputs.baths)),
      Entry("city", match inputs.city case Some(c) => Str(c) case None => Null) ]
  }

  /** The loop `for c in all_cities: input_data[f"city_{c}"] = ...`. */
  function AddIndicators(row: Row, city: Option<string>, cs: seq<string>): Row
    decreases |cs|
  {
    if cs == [] then row
    else AddIndicators(SetColumn(row, IndicatorName(cs[0]), Indicator(city, cs[0])), city, cs[1..])
  }

  /** The indicator columns for `cs`, in order: the reference result of the loop. */
  function Indicators(city: Option<string>, cs: seq<string>): (r: Row)
    ensures |r| == |cs|
    ensures forall k :: 0 <= k < |cs| ==> r[k] == Entry(IndicatorName(cs[k]), Indicator(city, cs[k]))
  {
    seq(|cs|, k requires 0 <= k < |cs| => Entry(IndicatorName(cs[k]), Indicator(city, cs[k])))
  }

  /** `app.py` lines 25-36: build the row, add the four indicators, drop
      `city`. The result is area, bedrooms and baths as given, then the
      four city indicators in list order. */
  function Encode(inputs: Inputs): (r: Row)
    ensures r == BaseRow(inputs) + Indicators(inputs.city, Cities)
  {
    var withCity := AddIndicators(InputRow(inputs), inputs.city, Cities);
    EncodeHasCity(inputs);
    AddCityIndicators(inputs);
    InputRowSplit(inputs);
    IndicatorsNotCity(inputs.city, Cities);
    RemoveSingle(BaseRow(inputs), InputRow(inputs)[3], Indicators(inputs.city, Cities));
    DropColumn(withCity, "city")
  }

  /** The aligned feature row handed to the model: exactly the training
      columns, in the training order, each holding its reference value. */
  function Features(inputs: Inputs, columns: seq<string>): (r: Row)
    ensures Names(r) == columns
    ensures forall i :: 0 <= i < |columns| ==> r[i].value == ExpectedFeature(inputs, columns[i])
  {
    EncodeShape(inputs);
    var r := Reindex(Encode(inputs), columns);
    assert forall i | 0 <= i < |columns| :: r[i].value == ExpectedFeature(inputs, columns[i]) by {
      forall i | 0 <= i < |columns|
        ensures r[i].value == ExpectedFeature(inputs, columns[i])
      {
        EncodeLookup(inputs, columns[i]);
        if columns[i] !in EncodedColumns {
          AbsentIsZero(inputs, columns[i]);
        }
      }
    }
    r
  }

  /** The whole `try` block of the endpoint, with the model as a parameter:
      `model` yields the prediction or the message of what it raised. */
  function Predict(toFloat: string -> Option<real>, toInt: string -> Option<int>,
                   model: Row -> Result<real, string>, columns: seq<string>, form: Form)
    : (r: Result<real, PredictError>)
    ensures ParseForm(toFloat, toInt, form).Failure? ==>
              r == Failure(ParseForm(toFloat, toInt, form).error)
    ensures ParseForm(toFloat, toInt, form).Success? ==>
              var row := Features(ParseForm(toFloat, toInt, form).value, columns);
              Names(row) == columns &&
              r == (match model(row) case Success(p) => Success(p) case Failure(m) => Failure(ModelError(m)))
  {
    var inputs :- ParseForm(toFloat, toInt, form);
    var row := Features(inputs, columns);
    EncodeShape(inputs);
    match model(row)
    case Success(p) => Success(p)
    case Failure(m) => Failure(ModelError(m))
  }

  /** What the endpoint sends back: the form page with the prediction, or
      a JSON object with one `error` field. Both carry HTTP status 200. */
  datatype Response = PredictionPage(price: real) | ErrorJson(error: string)

  /** `str(e)` for the exception behind each error. */
  function ErrorMessage(e: PredictError): (m: string)
    ensures e.ModelError? ==> m == e.message
    ensures !e.ModelError? ==> m != []
  {
    match e
    case MissingFloat(_) => "float() argument must be a string or a real number, not 'NoneType'"
    case MissingInt(_) => "int() argument must be a string, a bytes-like object or a real number, not 'NoneType'"
    case NotAFloat(t) => "could not convert string to float: '" + t + "'"
    case NotAnInt(t) => "invalid literal for int() with base 10: '" + t + "'"
    case ModelError(m) => m
  }

  function Respond(r: Result<real, PredictError>): (resp: Response)
    ensures r.Success? <==> resp.PredictionPage?
    ensures r.Success? ==> resp.price == r.value
    ensures r.Failure? ==> resp.error == ErrorMessage(r.error)
  {
    match r
    case Success(p) => PredictionPage(p)
    case Failure(e) => ErrorJson(ErrorMessage(e))
  }

  // ---------------------------------------------------------------------
  // Encoding

  lemma InputRowHasNoIndicators(inputs: Inputs, cs: seq<string>)
    ensures forall k :: 0 <= k < |cs| ==> !HasColumn(InputRow(inputs), IndicatorName(cs[k]))
  {
    forall k | 0 <= k < |cs|
      ensures !HasColumn(InputRow(inputs), IndicatorName(cs[k]))
    {
      var n := IndicatorName(cs[k]);
      assert n[0] == 'c' && |n| >= 5;
      forall i | 0 <= i < 4
        ensures InputRow(inputs)[i].name != n
      {
        var m := InputRow(inputs)[i].name;
        assert m[0] != 'c' || |m| < 5;
      }
    }
  }

  lemma AppendAbsent(row: Row, e: Entry, name: string)
    requires !HasColumn(row, name) && e.name != name
    ensures !HasColumn(row + [e], name)
  {
    assert forall i :: 0 <= i < |row| ==> (row + [e])[i] == row[i];
  }

  lemma DistinctTail(cs: seq<string>)
    requires cs != [] && Distinct(cs)
    ensures Distinct(cs[1..])
    ensures forall k :: 0 <= k < |cs| - 1 ==> cs[1..][k] != cs[0]
  {
    forall i, j | 0 <= i < j < |cs| - 1
      ensures cs[1..][i] != cs[1..][j]
    {
      assert cs[1..][i] == cs[i + 1] && cs[1..][j] == cs[j + 1];
    }
  }

  lemma IndicatorsCons(city: Option<string>, cs: seq<string>)
    requires cs != []
    ensures Indicators(city, cs) ==
              [Entry(IndicatorName(cs[0]), Indicator(city, cs[0]))] + Indicators(city, cs[1..])
  {
  }

  /** The loop appends one indicator per city, in list order, when none of
      them is in the row yet and the cities are distinct. */
  lemma {:induction false} AddIndicatorsAppends(row: Row, city: Option<string>, cs: seq<string>)
    requires Distinct(cs)
    requires forall k :: 0 <= k < |cs| ==> !HasColumn(row, IndicatorName(cs[k]))
    ensures AddIndicators(row, city, cs) == row + Indicators(city, cs)
    decreases |cs|
  {
    if cs != [] {
      var e := Entry(IndicatorName(cs[0]), Indicator(city, cs[0]));
      var row' := row + [e];
      assert SetColumn(row, e.name, e.value) == row';
      DistinctTail(cs);
      forall k | 0 <= k < |cs[1..]|
        ensures !HasColumn(row', IndicatorName(cs[1..][k]))
      {
        assert cs[1..][k] == cs[k + 1];
        IndicatorNameInjective(cs[k + 1], cs[0]);
        AppendAbsent(row, e, IndicatorName(cs[k + 1]));
      }
      assert AddIndicators(row, city, cs) == AddIndicators(row', city, cs[1..]);
      AddIndicatorsAppends(row', city, cs[1..]);
      IndicatorsCons(city, cs);
      SeqAssoc(row, [e], Indicators(city, cs[1..]));
    }
  }

  /** What the loop does to the row, whatever the cities: every city's
      indicator column reads its indicator, and every column that is not
      one of them reads as before. */
  lemma {:induction false} AddIndicatorsLookup(row: Row, city: Option<string>, cs: seq<string>)
    ensures forall k :: 0 <= k < |cs| ==>
              Lookup(AddIndicators(row, city, cs), IndicatorName(cs[k])) == Some(Indicator(city, cs[k]))
    ensures forall other :: other !in Names(Indicators(city, cs)) ==>
              Lookup(AddIndicators(row, city, cs), other) == Lookup(row, other)
    decreases |cs|
  {
    if cs != [] {
      var row' := SetColumn(row, IndicatorName(cs[0]), Indicator(city, cs[0]));
      var r := AddIndicators(row', city, cs[1..]);
      assert AddIndicators(row, city, cs) == r;
      AddIndicatorsLookup(row', city, cs[1..]);
      var later := Names(Indicators(city, cs[1..]));
      forall k | 0 <= k < |cs|
        ensures Lookup(r, IndicatorName(cs[k])) == Some(Indicator(city, cs[k]))
      {
        if k > 0 {
          assert cs[1..][k - 1] == cs[k];
        } else if IndicatorName(cs[0]) in later {
          var j :| 0 <= j < |later| && later[j] == IndicatorName(cs[0]);
          IndicatorNameInverse(cs[1..][j]);
          IndicatorNameInverse(cs[0]);
        }
      }
      forall other | other !in Names(Indicators(city, cs))
        ensures Lookup(r, other) == Lookup(row, other)
      {
        assert Names(Indicators(city, cs))[0] == IndicatorName(cs[0]);
        forall j | 0 <= j < |later|
          ensures later[j] != other
        {
          assert later[j] == Names(Indicators(city, cs))[j + 1];
        }
      }
    }
  }

  /** The input row has four distinct columns, each holding its parsed
      value, and `city` holds the posted text or `None`. */
  lemma InputRowLookup(inputs: Inputs)
    ensures Distinct(Names(InputRow(inputs)))
    ensures Lookup(InputRow(inputs), "area") == Some(Float(inputs.area))
    ensures Lookup(InputRow(inputs), "bedrooms") == Some(Int(inputs.bedrooms))
    ensures Lookup(InputRow(inputs), "baths") == Some(Int(inputs.baths))
    ensures Lookup(InputRow(inputs), "city") ==
              Some(if inputs.city.Some? then Str(inputs.city.value) else Null)
  {
    var ns := Names(InputRow(inputs));
    assert ns[0][1] == 'r' && ns[1][1] == 'e' && ns[2][1] == 'a' && ns[3][1] == 'i';
  }

  lemma SeqAssoc(a: Row, b: Row, c: Row)
    ensures (a + b) + c == a + (b + c)
  {
  }

  lemma IndicatorNameInjective(a: string, b: string)
    requires a != b
    ensures IndicatorName(a) != IndicatorName(b)
  {
    assert IndicatorName(a)[5..] == a;
    assert IndicatorName(b)[5..] == b;
  }

  lemma IndicatorNameInverse(c: string)
    ensures IndicatorName(c)[5..] == c
  {
  }

  lemma CitiesDistinct()
    ensures Distinct(Cities)
  {
  }

  lemma EncodeHasCity(inputs: Inputs)
    ensures HasColumn(AddIndicators(InputRow(inputs), inputs.city, Cities), "city")
  {
    CitiesDistinct();
    InputRowHasNoIndicators(inputs, Cities);
    AddIndicatorsAppends(InputRow(inputs), inputs.city, Cities);
    assert AddIndicators(InputRow(inputs), inputs.city, Cities)[3].name == "city";
  }

  /** The numeric columns of the input row, in order. */
  function BaseRow(inputs: Inputs): Row {
    [ Entry("area", Float(inputs.area)),
      Entry("bedrooms", Int(inputs.bedrooms)),
      Entry("baths", Int(inputs.baths)) ]
  }

  lemma InputRowSplit(inputs: Inputs)
    ensures InputRow(inputs) == BaseRow(inputs) + [InputRow(inputs)[3]]
    ensures InputRow(inputs)[3].name == "city"
    ensures forall i :: 0 <= i < |BaseRow(inputs)| ==> BaseRow(inputs)[i].name != "city"
  {
  }

  lemma IndicatorsNotCity(city: Option<string>, cs: seq<string>)
    ensures forall k :: 0 <= k < |cs| ==> Indicators(city, cs)[k].name != "city"
  {
    forall k | 0 <= k < |cs|
      ensures Indicators(city, cs)[k].name != "city"
    {
      assert |Indicators(city, cs)[k].name| >= 5;
    }
  }

  lemma AddCityIndicators(inputs: Inputs)
    ensures AddIndicators(InputRow(inputs), inputs.city, Cities)
            == InputRow(inputs) + Indicators(inputs.city, Cities)
  {
    CitiesDistinct();
    InputRowHasNoIndicators(inputs, Cities);
    AddIndicatorsAppends(InputRow(inputs), inputs.city, Cities);
  }

  /** The names of the four indicator columns, in loop order. */
  const IndicatorColumns: seq<string> :=
    ["city_Islamabad", "city_Karachi", "city_Lahore", "city_Rawalpindi"]

  lemma IndicatorNames(city: Option<string>)
    ensures Names(Indicators(city, Cities)) == IndicatorColumns
  {
    var n := Names(Indicators(city, Cities));
    assert n[0] == "city_Islamabad";
    assert n[1] == "city_Karachi";
    assert n[2] == "city_Lahore";
    assert n[3] == "city_Rawalpindi";
  }

  /** The columns of the encoded row, in the order `Encode` produces them. */
  const EncodedColumns: seq<string> := ["area", "bedrooms", "baths"] + IndicatorColumns

  lemma NamesConcat(a: Row, b: Row)
    ensures Names(a + b) == Names(a) + Names(b)
  {
  }

  lemma BaseNames(inputs: Inputs)
    ensures Names(BaseRow(inputs)) == ["area", "bedrooms", "baths"]
  {
    var n := Names(BaseRow(inputs));
    assert |n| == 3;
    assert n[0] == "area" && n[1] == "bedrooms" && n[2] == "baths";
  }

  lemma EncodeNames(inputs: Inputs)
    ensures Names(Encode(inputs)) == EncodedColumns
  {
    var base := BaseRow(inputs);
    var inds := Indicators(inputs.city, Cities);
    NamesConcat(base, inds);
    var n := Names(base) + Names(inds);
    assert Names(Encode(inputs)) == n;
    IndicatorNames(inputs.city);
    BaseNames(inputs);
    assert n == EncodedColumns;
  }

  lemma EncodedColumnsDistinct()
    ensures Distinct(EncodedColumns)
    ensures forall i :: 0 <= i < |EncodedColumns| ==> EncodedColumns[i] != "city"
  {
    var c := EncodedColumns;
    assert c[0][1] == 'r' && c[1][1] == 'e' && c[2][1] == 'a';
    assert c[0][0] != 'c' && c[1][0] != 'c' && c[2][0] != 'c';
    assert c[3][0] == 'c' && c[4][0] == 'c' && c[5][0] == 'c' && c[6][0] == 'c';
    assert c[3][5] == 'I' && c[4][5] == 'K' && c[5][5] == 'L' && c[6][5] == 'R';
    forall i, j | 0 <= i < j < |c|
      ensures c[i] != c[j]
    {
      if j < 3 {
        assert c[i][1] != c[j][1];
      } else if i < 3 {
        assert c[i][0] != c[j][0];
      } else {
        assert c[i][5] != c[j][5];
      }
    }
    forall i | 0 <= i < |c|
      ensures c[i] != "city"
    {
      assert |c[i]| != 4 || c[i][1] != 'i';
    }
  }

  /** The encoded row's columns, in order; no column is named twice and
      none is named `city`. */
  lemma EncodeShape(inputs: Inputs)
    ensures Names(Encode(inputs)) == EncodedColumns
    ensures Distinct(Names(Encode(inputs)))
    ensures !HasColumn(Encode(inputs), "city")
  {
    EncodeNames(inputs);
    EncodedColumnsDistinct();
    var row := Encode(inputs);
    assert forall i :: 0 <= i < |row| ==> row[i].name == Names(row)[i];
  }

  /** Removing the only column with a given name leaves the others in order. */
  lemma {:induction false} RemoveSingle(before: Row, e: Entry, after: Row)
    requires forall i :: 0 <= i < |before| ==> before[i].name != e.name
    requires forall i :: 0 <= i < |after| ==> after[i].name != e.name
    ensures Remove(before + [e] + after, e.name) == before + after
  {
    var whole := before + [e] + after;
    if before == [] {
      assert whole == [e] + after;
      assert whole[0] == e && whole[1..] == after;
      RemoveNone(after, e.name);
    } else {
      assert whole[0] == before[0];
      assert whole[1..] == before[1..] + [e] + after;
      RemoveSingle(before[1..], e, after);
      assert Remove(whole, e.name) == [before[0]] + (before[1..] + after);
      assert before + after == [before[0]] + (before[1..] + after);
    }
  }

  lemma {:induction false} RemoveNone(row: Row, name: string)
    requires forall i :: 0 <= i < |row| ==> row[i].name != name
    ensures Remove(row, name) == row
  {
    if row != [] {
      RemoveNone(row[1..], name);
    }
  }

  // ---------------------------------------------------------------------
  // What the model sees

  /** Reference definition of the value the model receives in column
      `name`: the three numbers under their own names, 1 in the indicator
      of the submitted city when it is one of the four, and 0 everywhere
      else (the other indicators, and every training column the encoded
      row lacks). */
  function ExpectedFeature(inputs: Inputs, name: string): Value {
    if name == "area" then Float(inputs.area)
    else if name == "bedrooms" then Int(inputs.bedrooms)
    else if name == "baths" then Int(inputs.baths)
    else if inputs.city.Some? && inputs.city.value in Cities && name == IndicatorName(inputs.city.value) then Int(1)
    else Int(0)
  }

  lemma BaseValues(inputs: Inputs)
    ensures forall j :: 0 <= j < |BaseRow(inputs)| ==>
              BaseRow(inputs)[j].value == ExpectedFeature(inputs, BaseRow(inputs)[j].name)
  {
    assert "bedrooms" != "area";
    assert "baths" != "area" && "baths" != "bedrooms";
  }

  lemma IndicatorValue(inputs: Inputs, k: nat)
    requires k < |Cities|
    ensures ExpectedFeature(inputs, IndicatorName(Cities[k])) == Indicator(inputs.city, Cities[k])
  {
    var n := IndicatorName(Cities[k]);
    assert n[0] == 'c';
    assert n != "area" && n != "bedrooms" && n != "baths";
    if inputs.city.Some? && inputs.city.value in Cities && n == IndicatorName(inputs.city.value) {
      if inputs.city.value != Cities[k] {
        IndicatorNameInjective(inputs.city.value, Cities[k]);
      }
    }
  }

  /** Every column of the encoded row holds its reference value. */
  lemma EncodeValues(inputs: Inputs)
    ensures forall j :: 0 <= j < |Encode(inputs)| ==>
              Encode(inputs)[j].value == ExpectedFeature(inputs, Encode(inputs)[j].name)
  {
    BaseValues(inputs);
    var row := Encode(inputs);
    var inds := Indicators(inputs.city, Cities);
    forall j | 0 <= j < |row|
      ensures row[j].value == ExpectedFeature(inputs, row[j].name)
    {
      if j < 3 {
        assert row[j] == BaseRow(inputs)[j];
      } else {
        assert row[j] == inds[j - 3];
        IndicatorValue(inputs, j - 3);
      }
    }
  }

  /** A column the encoded row lacks has reference value 0, the value
      reindexing fills it with. */
  lemma AbsentIsZero(inputs: Inputs, name: string)
    requires name !in EncodedColumns
    ensures ExpectedFeature(inputs, name) == FillValue
  {
    var c := EncodedColumns;
    assert c[0] == "area" && c[1] == "bedrooms" && c[2] == "baths";
    if inputs.city.Some? && inputs.city.value in Cities {
      var k :| 0 <= k < |Cities| && Cities[k] == inputs.city.value;
      IndicatorNames(inputs.city);
      assert Names(Indicators(inputs.city, Cities))[k] == IndicatorName(Cities[k]);
      assert c[3 + k] == IndicatorName(Cities[k]);
    }
  }

  /** Looking a column up in the encoded row: the reference value for
      each of its seven columns, nothing for any other name. */
  lemma EncodeLookup(inputs: Inputs, name: string)
    ensures name in EncodedColumns ==> Lookup(Encode(inputs), name) == Some(ExpectedFeature(inputs, name))
    ensures name !in EncodedColumns ==> Lookup(Encode(inputs), name) == None
  {
    EncodeShape(inputs);
    EncodeValues(inputs);
    var row := Encode(inputs);
    if name in EncodedColumns {
      var j :| 0 <= j < |EncodedColumns| && EncodedColumns[j] == name;
      assert row[j].name == name;
    } else {
      assert forall j :: 0 <= j < |row| ==> row[j].name == Names(row)[j];
    }
  }

  lemma IndicatorColumnsListed(k: nat)
    requires k < |Cities|
    ensures IndicatorName(Cities[k]) in EncodedColumns
  {
    IndicatorNames(None);
    assert Names(Indicators(None, Cities))[k] == IndicatorName(Cities[k]);
    assert EncodedColumns[3 + k] == IndicatorName(Cities[k]);
  }

  /** One-hot encoding: a city from the list sets exactly its own
      indicator to 1 and the other three to 0. */
  lemma OneHotKnownCity(inputs: Inputs, k: nat)
    requires k < |Cities| && inputs.city == Some(Cities[k])
    ensures forall j :: 0 <= j < |Cities| ==>
              Lookup(Encode(inputs), IndicatorName(Cities[j])) == Some(Int(if j == k then 1 else 0))
  {
    CitiesDistinct();
    forall j | 0 <= j < |Cities|
      ensures Lookup(Encode(inputs), IndicatorName(Cities[j])) == Some(Int(if j == k then 1 else 0))
    {
      IndicatorColumnsListed(j);
      EncodeLookup(inputs, IndicatorName(Cities[j]));
      IndicatorValue(inputs, j);
    }
  }

  /** A city outside the list, or no city at all, sets every indicator to 0. */
  lemma AllZeroUnknownCity(inputs: Inputs)
    requires inputs.city.None? || inputs.city.value !in Cities
    ensures forall j :: 0 <= j < |Cities| ==>
              Lookup(Encode(inputs), IndicatorName(Cities[j])) == Some(Int(0))
  {
    forall j | 0 <= j < |Cities|
      ensures Lookup(Encode(inputs), IndicatorName(Cities[j])) == Some(Int(0))
    {
      IndicatorColumnsListed(j);
      EncodeLookup(inputs, IndicatorName(Cities[j]));
      IndicatorValue(inputs, j);
    }
  }

  /** The endpoint end to end: a missing or unparsable number is reported
      as an error, area before bedrooms before baths; otherwise the page
      shows what the model returns for the reference feature row. */
  lemma EndpointErrors(toFloat: string -> Option<real>, toInt: string -> Option<int>,
                       model: Row -> Result<real, string>, columns: seq<string>, form: Form)
    ensures "area" !in form ==>
              Respond(Predict(toFloat, toInt, model, columns, form)) == ErrorJson(ErrorMessage(MissingFloat("area")))
    ensures "area" in form && toFloat(form["area"]).None? ==>
              Respond(Predict(toFloat, toInt, model, columns, form)) == ErrorJson(ErrorMessage(NotAFloat(form["area"])))
    ensures FloatField(toFloat, form, "area").Success? && "bedrooms" !in form ==>
              Respond(Predict(toFloat, toInt, model, columns, form)) == ErrorJson(ErrorMessage(MissingInt("bedrooms")))
    ensures FloatField(toFloat, form, "area").Success? && "bedrooms" in form && toInt(form["bedrooms"]).None? ==>
              Respond(Predict(toFloat, toInt, model, columns, form)) == ErrorJson(ErrorMessage(NotAnInt(form["bedrooms"])))
    ensures FloatField(toFloat, form, "area").Success? && IntField(toInt, form, "bedrooms").Success?
            && "baths" !in form ==>
              Respond(Predict(toFloat, toInt, model, columns, form)) == ErrorJson(ErrorMessage(MissingInt("baths")))
    ensures FloatField(toFloat, form, "area").Success? && IntField(toInt, form, "bedrooms").Success?
            && "baths" in form && toInt(form["baths"]).None? ==>
              Respond(Predict(toFloat, toInt, model, columns, form)) == ErrorJson(ErrorMessage(NotAnInt(form["baths"])))
  {
  }

  lemma EndpointSuccess(toFloat: string -> Option<real>, toInt: string -> Option<int>,
                        model: Row -> Result<real, string>, columns: seq<string>, form: Form,
                        inputs: Inputs, row: Row)
    requires ParseForm(toFloat, toInt, form) == Success(inputs)
    requires Names(row) == columns
    requires forall i :: 0 <= i < |columns| ==> row[i].value == ExpectedFeature(inputs, columns[i])
    ensures model(row).Success? ==>
              Respond(Predict(toFloat, toInt, model, columns, form)) == PredictionPage(model(row).value)
    ensures model(row).Failure? ==>
              Respond(Predict(toFloat, toInt, model, columns, form)) == ErrorJson(model(row).error)
  {
    FeaturesUnique(inputs, columns, row);
    PredictOfParsed(toFloat, toInt, model, columns, form, inputs);
  }

  lemma PredictOfParsed(toFloat: string -> Option<real>, toInt: string -> Option<int>,
                        model: Row -> Result<real, string>, columns: seq<string>, form: Form,
                        inputs: Inputs)
    requires ParseForm(toFloat, toInt, form) == Success(inputs)
    ensures var m := model(Features(inputs, columns));
            Predict(toFloat, toInt, model, columns, form) ==
              if m.Success? then Success(m.value) else Failure(ModelError(m.error))
  {
  }

  /** The reference description pins the feature row down completely. */
  lemma FeaturesUnique(inputs: Inputs, columns: seq<string>, row: Row)
    requires Names(row) == columns
    requires forall i :: 0 <= i < |columns| ==> row[i].value == ExpectedFeature(inputs, columns[i])
    ensures Features(inputs, columns) == row
  {
    SameRow(Features(inputs, columns), row);
  }

  /** Two rows with the same column names and the same values are equal. */
  lemma SameRow(a: Row, b: Row)
    requires Names(a) == Names(b)
    requires forall i :: 0 <= i < |a| ==> a[i].value == b[i].value
    ensures a == b
  {
    forall i | 0 <= i < |a|
      ensures a[i] == b[i]
    {
      assert Names(a)[i] == Names(b)[i];
    }
  }
}
