/** The data-cleaning and configuration steps of the trainer: area-unit
    normalisation of the `area` column, zero-filling of missing values in
    features and target, and the check that the configured model type is
    the one supported family. */
module Training {
  import opened Wrappers
  import opened Text

  /** One cell of the dataset as pandas holds it after reading the CSV. */
  datatype Cell = Str(s: string) | Num(x: real) | Missing

  datatype Column = Column(name: string, cells: seq<Cell>)

  /** Square feet per marla and per kanal. */
  const MarlaFactor: real := 272.25
  const KanalFactor: real := 5445.0

  /** `value.lower().strip()`: no whitespace is left at either end, and
      nothing at all is left exactly when the text was all whitespace. */
  function Normalize(s: string): (r: string)
    ensures IsStripped(r)
    ensures r == [] <==> AllSpace(s)
  {
    LowerKeepsAllSpace(s);
    Strip(Lower(s))
  }

  /** `float(value.split()[0])` on the normalised text: `None` when there
      is no token or the token is not a number. */
  function LeadingNumber(toFloat: string -> Option<real>, s: string): (r: Option<real>)
    ensures FirstToken(Normalize(s)).None? ==> r.None?
    ensures FirstToken(Normalize(s)).Some? ==> r == toFloat(FirstToken(Normalize(s)).value)
  {
    match FirstToken(Normalize(s))
    case None => None
    case Some(tok) => toFloat(tok)
  }

  /** Scale a number by the unit words found in normalised text `t`;
      "marla" is checked before "kanal". */
  function ScaleByUnit(n: real, t: string): real {
    if Contains(t, "marla") then n * MarlaFactor
    else if Contains(t, "kanal") then n * KanalFactor
    else n
  }

  /** The unit precedence: "marla" wins, then "kanal", else no scaling. */
  lemma ScaleByUnitCases(n: real, t: string)
    ensures Contains(t, "marla") ==> ScaleByUnit(n, t) == n * MarlaFactor
    ensures !Contains(t, "marla") && Contains(t, "kanal") ==> ScaleByUnit(n, t) == n * KanalFactor
    ensures !Contains(t, "marla") && !Contains(t, "kanal") ==> ScaleByUnit(n, t) == n
  {
  }

  /** `convert_area`: a string becomes its leading number scaled by its
      unit, or `Missing` when it has no leading number; any other cell is
      returned as it is. `toFloat` is Python's `float(str)`. */
  function ConvertArea(toFloat: string -> Option<real>, v: Cell): (r: Cell)
    ensures !v.Str? ==> r == v
    ensures v.Str? ==> (r == Missing <==> LeadingNumber(toFloat, v.s).None?)
    ensures v.Str? && LeadingNumber(toFloat, v.s).Some? ==>
              var n := LeadingNumber(toFloat, v.s).value;
              var t := Normalize(v.s);
              r == Num(ScaleByUnit(n, t))
  {
    if !v.Str? then v
    else
      match LeadingNumber(toFloat, v.s)
      case None => Missing
      case Some(n) => Num(ScaleByUnit(n, Normalize(v.s)))
  }

  /** `Series.fillna(0)`. */
  function FillMissing(cells: seq<Cell>): (r: seq<Cell>)
    ensures |r| == |cells|
    ensures forall i :: 0 <= i < |cells| ==> !r[i].Missing?
    ensures forall i :: 0 <= i < |cells| ==>
              r[i] == (if cells[i].Missing? then Num(0.0) else cells[i])
  {
    if cells == [] then []
    else [if cells[0].Missing? then Num(0.0) else cells[0]] + FillMissing(cells[1..])
  }

  function ConvertAll(toFloat: string -> Option<real>, cells: seq<Cell>): (r: seq<Cell>)
    ensures |r| == |cells|
    ensures forall i :: 0 <= i < |cells| ==> r[i] == ConvertArea(toFloat, cells[i])
  {
    if cells == [] then [] else [ConvertArea(toFloat, cells[0])] + ConvertAll(toFloat, cells[1..])
  }

  /** The feature-cleaning step: the `area` column (when present) goes
      through `convert_area`, then every missing value becomes 0. */
  function CleanFeatures(toFloat: string -> Option<real>, features: seq<Column>): (r: seq<Column>)
    ensures |r| == |features|
    ensures forall j :: 0 <= j < |features| ==> r[j].name == features[j].name
    ensures forall j :: 0 <= j < |features| ==>
              r[j].cells == FillMissing(if features[j].name == "area"
                                        then ConvertAll(toFloat, features[j].cells)
                                        else features[j].cells)
  {
    if features == [] then []
    else
      var c := features[0];
      var cells := if c.name == "area" then ConvertAll(toFloat, c.cells) else c.cells;
      [Column(c.name, FillMissing(cells))] + CleanFeatures(toFloat, features[1..])
  }

  predicate NoMissing(features: seq<Column>) {
    forall j, i :: 0 <= j < |features| && 0 <= i < |features[j].cells| ==>
      !features[j].cells[i].Missing?
  }

  /** The linear-regression configuration the trainer fits with. */
  datatype ModelSpec = LinearRegression(fitIntercept: bool)

  /** The `model` section of the parameter file. */
  datatype ModelParams = ModelParams(kind: string, fitIntercept: bool)

  datatype ConfigError = UnsupportedModelType

  /** Only `"LinearRegression"` is a supported model type. */
  function ChooseModel(p: ModelParams): (r: Result<ModelSpec, ConfigError>)
    ensures r.Success? <==> p.kind == "LinearRegression"
    ensures r.Success? ==> r.value.fitIntercept == p.fitIntercept
  {
    if p.kind == "LinearRegression" then Success(LinearRegression(p.fitIntercept))
    else Failure(UnsupportedModelType)
  }

  /** The `model` section that configures `spec`. */
  function ParamsOf(spec: ModelSpec): ModelParams {
    ModelParams("LinearRegression", spec.fitIntercept)
  }

  /** Every supported configuration is accepted, and an accepted section
      is exactly the one that describes the chosen model. */
  lemma ChooseModelRoundTrip(spec: ModelSpec, p: ModelParams)
    ensures ChooseModel(ParamsOf(spec)) == Success(spec)
    ensures ChooseModel(p) == Success(spec) ==> p == ParamsOf(spec)
  {
  }

  /** What reaches the fitting step. */
  datatype FitInput = FitInput(features: seq<Column>, target: seq<Cell>, model: ModelSpec)

  /** The trainer up to the call to `fit`: clean the features and the
      target, then check the model type. */
  function PrepareFit(toFloat: string -> Option<real>, p: ModelParams,
                      features: seq<Column>, target: seq<Cell>): (r: Result<FitInput, ConfigError>)
    ensures r.Failure? <==> p.kind != "LinearRegression"
    ensures r.Success? ==>
              && r.value.features == CleanFeatures(toFloat, features)
              && r.value.target == FillMissing(target)
              && r.value.model == LinearRegression(p.fitIntercept)
  {
    var x := CleanFeatures(toFloat, features);
    var y := FillMissing(target);
    var spec :- ChooseModel(p);
    Success(FitInput(x, y, spec))
  }

  // ---------------------------------------------------------------------
  // Properties

  /** Lowering then stripping a second time changes nothing. */
  lemma {:induction false} NormalizeIdempotent(s: string)
    ensures Normalize(Normalize(s)) == Normalize(s)
  {
    var t := Normalize(s);
    LowerAt(s);
    LowerAt(t);
    forall i | 0 <= i < |t|
      ensures LowerChar(t[i]) == t[i]
    {
      StripChars(Lower(s), i);
    }
    assert Lower(t) == t;
    StripIdempotent(t);
  }

  /** Case and surrounding whitespace do not change the normalised text. */
  lemma {:induction false} NormalizeIgnoresCaseAndPadding(p: string, u: string, q: string, s: string)
    requires AllSpace(p) && AllSpace(q)
    requires Lower(u) == Lower(s)
    ensures Normalize(p + u + q) == Normalize(s)
  {
    LowerConcat(p + u, q);
    LowerConcat(p, u);
    LowerKeepsAllSpace(p);
    LowerKeepsAllSpace(q);
    StripIgnoresPadding(Lower(p), Lower(s), Lower(q));
  }

  /** "9.6 MARLA" and " 9.6 marla " convert identically: only the
      lowercased, stripped text matters. */
  lemma ConvertAreaIgnoresCaseAndPadding(toFloat: string -> Option<real>,
                                         p: string, u: string, q: string, s: string)
    requires AllSpace(p) && AllSpace(q)
    requires Lower(u) == Lower(s)
    ensures ConvertArea(toFloat, Str(p + u + q)) == ConvertArea(toFloat, Str(s))
  {
    NormalizeIgnoresCaseAndPadding(p, u, q, s);
  }

  /** Converting the already-normalised text gives the same cell. */
  lemma ConvertAreaOfNormalized(toFloat: string -> Option<real>, s: string)
    ensures ConvertArea(toFloat, Str(Normalize(s))) == ConvertArea(toFloat, Str(s))
  {
    NormalizeIdempotent(s);
  }

  lemma NormalizeOfNumberAndWord(num: string, word: string)
    requires num != [] && NoSpace(num) && Lower(num) == num
    requires word != [] && IsStripped(word)
    ensures Normalize(num + (" " + word)) == num + (" " + Lower(word))
  {
    LowerConcat(num, " " + word);
    LowerConcat(" ", word);
    assert Lower(" ") == " ";
    var t := num + (" " + Lower(word));
    LowerAt(word);
    LowerCharKeepsSpace(word[0]);
    LowerCharKeepsSpace(word[|word| - 1]);
    assert t[0] == num[0] && t[|t| - 1] == Lower(word)[|word| - 1];
    StripOfPadded([], t, []);
    assert [] + t + [] == t;
  }

  /** An area written `<number> <unit words>` has the number's token as
      its first token and the lowercased words as its unit text, whatever
      their case. */
  lemma LeadingNumberOfNumberAndWord(toFloat: string -> Option<real>, num: string, word: string)
    requires num != [] && NoSpace(num) && Lower(num) == num
    requires word != [] && IsStripped(word)
    ensures Normalize(num + (" " + word)) == num + (" " + Lower(word))
    ensures LeadingNumber(toFloat, num + (" " + word)) == toFloat(num)
  {
    NormalizeOfNumberAndWord(num, word);
    FirstTokenAtStart(num, " " + Lower(word));
  }

  /** A bare number (no unit word) converts to itself. */
  lemma ConvertAreaOfBareNumber(toFloat: string -> Option<real>, num: string)
    requires num != [] && NoSpace(num) && Lower(num) == num
    requires !Contains(num, "marla") && !Contains(num, "kanal")
    ensures ConvertArea(toFloat, Str(num)) ==
              match toFloat(num)
              case None => Missing
              case Some(n) => Num(n)
  {
    assert IsStripped(num);
    StripOfPadded([], num, []);
    assert [] + num + [] == num;
    FirstTokenAtStart(num, []);
    assert num + [] == num;
  }

  /** After cleaning no feature cell is missing, every `area` cell is a
      number, and every other non-missing cell is untouched. */
  lemma CleanFeaturesShape(toFloat: string -> Option<real>, features: seq<Column>)
    ensures NoMissing(CleanFeatures(toFloat, features))
    ensures forall j, i :: 0 <= j < |features| && features[j].name == "area" && 0 <= i < |features[j].cells| ==>
              CleanFeatures(toFloat, features)[j].cells[i].Num?
    ensures forall j, i :: 0 <= j < |features| && features[j].name != "area" && 0 <= i < |features[j].cells| ==>
              CleanFeatures(toFloat, features)[j].cells[i] ==
                (if features[j].cells[i].Missing? then Num(0.0) else features[j].cells[i])
  {
    var r := CleanFeatures(toFloat, features);
    forall j, i | 0 <= j < |features| && features[j].name == "area" && 0 <= i < |features[j].cells|
      ensures r[j].cells[i].Num?
    {
      var converted := ConvertAll(toFloat, features[j].cells);
      assert r[j].cells == FillMissing(converted);
      ConvertAreaNeverText(toFloat, features[j].cells[i]);
    }
  }

  /** Converting a cell yields a number or a missing value, never text. */
  lemma ConvertAreaNeverText(toFloat: string -> Option<real>, v: Cell)
    ensures !ConvertArea(toFloat, v).Str?
  {
  }

  /** Zero-filling is idempotent. */
  lemma FillMissingIdempotent(cells: seq<Cell>)
    ensures FillMissing(FillMissing(cells)) == FillMissing(cells)
  {
  }

  /** In the model, whether fitting is reached depends on the configuration
      alone, not on the data or on how numbers are read. The script's
      train/test split, which can fail first, is not part of the model. */
  lemma PrepareFitOnlyChecksConfig(toFloat: string -> Option<real>, toFloat': string -> Option<real>,
                                   p: ModelParams, features: seq<Column>, target: seq<Cell>,
                                   features': seq<Column>, target': seq<Cell>)
    ensures PrepareFit(toFloat, p, features, target).Success? ==
              PrepareFit(toFloat', p, features', target').Success?
  {
  }

  /** Successful preparation implies a supported model and fully filled data. */
  lemma PrepareFitClean(toFloat: string -> Option<real>, p: ModelParams,
                        features: seq<Column>, target: seq<Cell>)
    requires PrepareFit(toFloat, p, features, target).Success?
    ensures p.kind == "LinearRegression"
    ensures NoMissing(PrepareFit(toFloat, p, features, target).value.features)
    ensures forall i :: 0 <= i < |target| ==>
              !PrepareFit(toFloat, p, features, target).value.target[i].Missing?
  {
    CleanFeaturesShape(toFloat, features);
  }
}
