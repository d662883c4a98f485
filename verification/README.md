# House-price prediction: area cleaning and the prediction endpoint

A Dafny model of the two pieces of logic in the house-price demo that do
more than call a library:

- **The trainer's data cleaning** (`train.py`). `convert_area` turns a raw
  area cell such as `"9.6 Marla"` into square feet. It lowercases and
  strips the text, reads the first whitespace-separated token as a float,
  then multiplies by 272.25 when the text mentions `marla`, by 5445 when it
  mentions `kanal`, and leaves the number alone otherwise. A cell without
  a readable number becomes missing. The cleaned `area` column and every
  other feature and the target are then zero-filled. A model type other
  than `LinearRegression` stops the run before fitting.
- **The `/predict` endpoint** (`app.py`). It reads `area` as a float and
  `bedrooms` and `baths` as ints from the form, builds a one-row frame, and
  adds one indicator column `city_<c>` for each of Islamabad, Karachi,
  Lahore and Rawalpindi (1 for the submitted city, 0 otherwise). It then
  drops `city` and reindexes the row against the training column list,
  filling absent columns with 0. The model's prediction is rendered on the
  page. Any exception on the way is turned into a JSON `{"error": ...}`
  answer.

Modules, one per file:

| file | module | contents |
|---|---|---|
| `wrappers.dfy` | `Wrappers` | `Option` and `Result`, with the failure-propagating `:-` |
| `text.dfy` | `Text` | Python's `isspace`, `lower`, `strip`, `split()[0]` and `in` on strings |
| `numbers.dfy` | `Numbers` | a concrete decimal reading of `float()` and `int()`, and `str()` of numbers |
| `training.dfy` | `Training` | `convert_area`, the column apply, `fillna(0)`, the model-type check |
| `area_examples.dfy` | `AreaExamples` | worked conversions of area strings, proved with the concrete `float()` |
| `frame.dfy` | `Frame` | a one-row DataFrame: column assignment, `drop` and `reindex` |
| `service.dfy` | `Service` | form parsing, the encoded row, the aligned feature row, prediction and response |

Python's number parsing is a parameter of the core functions
(`toFloat: string -> Option<real>` and `toInt: string -> Option<int>`,
`None` where Python raises). The properties therefore hold for whatever
grammar `float()` and `int()` accept, as far as the finite values
`float()` returns; its infinities and NaN are not modelled (see below). `Numbers.ParseFloat` and
`Numbers.ParseInt` are one concrete instance, used for the worked
examples. The fitted model is likewise a parameter,
`model: Row -> Result<real, string>`, with the `Failure` side standing
for the exception it may raise.

The endpoint never checks `city` against the list of four cities. A city
outside it, or no city at all, is encoded with all four indicators 0 and
no error (`Service.AllZeroUnknownCity`).

The two files hold different kinds of cell, so the model has two cell
types: `Training.Cell` is a cell of the CSV as read (text, a number or
missing), while `Frame.Value` is a typed value of the endpoint's one-row
frame (a float, an int, a string or `None`).

## Model

| member | source | states |
|---|---|---|
| Text.Lower | train.py:24 | `lower()` keeps the length; what it does to each code point is stated by `Text.LowerAt` |
| Text.LowerAt | train.py:24 | `lower()` maps each code point on its own, position by position |
| Text.IsSpace | train.py:24-26 | the code points Python's `strip()` and `split()` treat as whitespace (`str.isspace`) |
| Text.Strip | train.py:24 | `strip()` leaves no whitespace at either end, and yields the empty string exactly when the text is all whitespace |
| Text.StripParts | train.py:24 | `strip()` removes exactly a whitespace prefix and a whitespace suffix, nothing from the middle |
| Text.StripOfPadded | train.py:24 | a stripped core padded with whitespace strips back to exactly that core |
| Text.StripIgnoresPadding | train.py:24 | adding whitespace around a string does not change what it strips to |
| Text.StripIdempotent | train.py:24 | stripping twice is stripping once |
| Text.FirstToken | train.py:26 | `split()[0]` is absent exactly for an all-whitespace string; when present it is non-empty and contains no whitespace |
| Text.FirstTokenOf | train.py:26 | the first token of whitespace, then a token, then whitespace or nothing, is that token |
| Text.Contains | train.py:30-32 | `w in s`; `Text.ContainsPadded` and `Text.ContainsSplit` prove it equal to "`s` is some text, then `w`, then some text" |
| Text.ContainsPadded | train.py:30-32 | `w in a + w + b` holds for every prefix `a` and suffix `b` |
| Text.ContainsSplit | train.py:30-32 | when `w` is found in `s`, `s` splits into a prefix, `w` and a suffix |
| Numbers.ParseFloat | train.py:26 | an empty or all-whitespace string does not parse as a float |
| Numbers.ParseInt | app.py:20 | an empty or all-whitespace string does not parse as an integer; `Numbers.ParseIntRoundTrip` states what it reads |
| Numbers.ParseIntRoundTrip | app.py:20 | `int(str(i)) == i` for every integer |
| Numbers.ParseFloatOfNat | app.py:19 | `float(str(n)) == n` for every natural number |
| Numbers.ParseFloatOfFixedPoint | app.py:19 | a decimal `<digits>.<digits>` parses to its exact value |
| Training.LeadingNumber | train.py:24-28 | no number when the lowercased, stripped text has no token (the caught `IndexError`); otherwise the float reading of the first token |
| Training.ScaleByUnit | train.py:30-35 | the scaling by unit word; its three cases are stated by `Training.ScaleByUnitCases` |
| Training.ScaleByUnitCases | train.py:30-35 | `marla` anywhere gives ×272.25 even when `kanal` also appears; `kanal` without `marla` gives ×5445; neither leaves the number as is |
| Training.ConvertArea | train.py:22-36 | a non-string cell is returned unchanged; a string is missing exactly when it has no readable leading number, and otherwise is that number scaled by the unit named in its normalised text |
| Training.ConvertAreaIgnoresCaseAndPadding | train.py:24 | two area texts that differ only in letter case and surrounding whitespace convert to the same cell |
| Training.ConvertAreaOfNormalized | train.py:24 | converting the already lowercased and stripped text gives the same cell as converting the raw text |
| Training.Normalize | train.py:24 | the lowercased, stripped text has no whitespace at either end, and is empty exactly when the raw text was all whitespace |
| Training.NormalizeIdempotent | train.py:24 | lowercasing and stripping a second time changes nothing |
| Training.LeadingNumberOfNumberAndWord | train.py:24-26 | for `<number> <unit words>` the leading number is the number's token, and the unit text is the lowercased words |
| Training.ConvertAreaOfBareNumber | train.py:34-35 | a bare number with no unit word converts to itself, or to missing when it does not parse |
| Training.ConvertAll | train.py:39-40 | the column apply keeps the length and converts each cell on its own |
| Training.FillMissing | train.py:43-44 | `fillna(0)` keeps the length, leaves no missing cell, turns each missing cell into 0 and keeps every other cell |
| Training.FillMissingIdempotent | train.py:43-44 | filling an already filled column changes nothing |
| Training.CleanFeatures | train.py:39-43 | the column names and order are kept; the `area` column is converted then filled, every other column is only filled |
| Training.CleanFeaturesShape | train.py:39-43 | after cleaning no feature cell is missing, every `area` cell is a number, and every other present cell is unchanged |
| Training.ChooseModel | train.py:55-58 | the configuration is accepted exactly when the type is `LinearRegression`, and the intercept flag is carried over |
| Training.ChooseModelRoundTrip | train.py:55-58 | the section that describes a linear regression is accepted as that model, and an accepted section is always that description |
| Training.PrepareFit | train.py:39-58 | preparation fails exactly for an unsupported model type; otherwise fitting receives the cleaned features, the zero-filled target and the configured model |
| Training.PrepareFitOnlyChecksConfig | train.py:39-58 | in the model, whether fitting is reached depends only on the model type, not on the data or the number reading (the split that can fail first is not modelled) |
| Training.PrepareFitClean | train.py:39-58 | whenever fitting is reached, the model type was `LinearRegression` and neither the features nor the target hold a missing value |
| AreaExamples.MarlaExample | train.py:30-31 | `"9.6 Marla"` converts to 2613.6 |
| AreaExamples.KanalExample | train.py:32-33 | `"2 Kanal"` converts to 10890 |
| AreaExamples.BareNumberExample | train.py:34-35 | `"1200"` converts to 1200 |
| AreaExamples.NotANumberExample | train.py:25-28 | `"N/A"` converts to missing, and zero-filling turns it into 0 |
| AreaExamples.CaseAndPaddingExample | train.py:24 | `" 9.6 marla "` and `"9.6 MARLA"` convert identically |
| Frame.Lookup | app.py:39 | a column lookup is absent exactly when the row has no such column; in a row with distinct names it gives that column's value |
| Frame.SetColumn | app.py:35 | `df[name] = v` makes `name` read `v` and leaves every other column's value unchanged; an existing column keeps its place, a new one is appended last |
| Frame.DropColumn | app.py:36 | after `drop`, the column is gone and every other column reads as before |
| Frame.Reindex | app.py:39 | the reindexed columns are exactly the requested list, in order; a listed column the row has keeps its value, a listed column it lacks holds 0 |
| Frame.ReindexLookup | app.py:39 | after reindexing, a listed column reads as in the row or as 0, and an unlisted column is gone, also when the column list repeats a name |
| Frame.ReindexOwnColumns | app.py:39 | reindexing a row against its own column list changes nothing |
| Frame.ReindexThrough | app.py:39 | reindexing through a wider column list first gives the same row as reindexing directly |
| Frame.ReindexIdempotent | app.py:39 | reindexing twice against the same list is reindexing once |
| Service.IndicatorName | app.py:35 | the column name `f"city_{c}"`; `Service.IndicatorNameInverse` recovers `c` from it |
| Service.IndicatorNameInverse | app.py:35 | dropping the `city_` prefix from an indicator column's name gives back the city |
| Service.IndicatorNameInjective | app.py:35 | two different cities get different indicator columns |
| Service.Indicator | app.py:35 | an indicator is 1 exactly when the submitted city is that city, and 0 otherwise |
| Service.Get | app.py:19-22 | `form.get(key)` is present exactly when the key was posted, and is then its text |
| Service.FloatField | app.py:19 | a missing field, an unparsable text and a parsed float are told apart; the error names the field or the text |
| Service.IntField | app.py:20-21 | the same for the integer fields |
| Service.ParseForm | app.py:17-22 | parsing succeeds exactly when area, bedrooms and baths all parse, and then holds those values and the city as posted |
| Service.AddIndicatorsAppends | app.py:33-35 | the loop appends one indicator per city in list order when none of them is in the row yet |
| Service.InputRow | app.py:25-30 | the input row's four columns, their values and their distinctness are stated by `Service.InputRowLookup` |
| Service.InputRowLookup | app.py:25-30 | the input row has four distinct columns: `area`, `bedrooms` and `baths` hold the parsed numbers, `city` holds the posted text or `None` |
| Service.AddIndicators | app.py:34-35 | the loop's effect is stated by `Service.AddIndicatorsLookup` and `Service.AddIndicatorsAppends` |
| Service.AddIndicatorsLookup | app.py:34-35 | after the loop every listed city's column holds that city's indicator, and every other column reads as before |
| Service.Encode | app.py:25-36 | the encoded row is area, bedrooms and baths as parsed, followed by the four indicators; `city` is gone |
| Service.EncodeShape | app.py:25-36 | the encoded columns are `area`, `bedrooms`, `baths` and the four `city_` columns, in that order, with no repeats and no `city` |
| Service.EncodeLookup | app.py:25-36 | each of the seven encoded columns reads its reference value, and any other name is absent |
| Service.OneHotKnownCity | app.py:33-35 | for a city from the list, its own indicator is 1 and the other three are 0 |
| Service.AllZeroUnknownCity | app.py:33-35 | for a city outside the list, or no city, all four indicators are 0 |
| Service.AbsentIsZero | app.py:39 | any name outside the encoded columns has reference value 0, the value reindexing fills in |
| Service.Features | app.py:39 | the row given to the model has exactly the training columns in training order, and each holds its reference value: the parsed number, the city's indicator, or 0 |
| Service.FeaturesUnique | app.py:39 | any row with the training columns and the reference values is the row given to the model |
| Service.Predict | app.py:17-42 | a parse error is reported as is; otherwise the model receives a row with exactly the training columns, and its result or its error is passed on |
| Service.ErrorMessage | app.py:45-46 | a model error keeps the model's own message; every parse error has a non-empty message |
| Service.Respond | app.py:42-46 | a success becomes the prediction page with that price; a failure becomes a JSON error carrying the error's message |
| Service.EndpointErrors | app.py:17-46 | a missing or unparsable area is the reported error; after it, a missing or unparsable bedrooms field; after that, a missing or unparsable baths field |
| Service.EndpointSuccess | app.py:39-43 | with a parsable form, the page shows the model's prediction for the reference feature row, or the model's error message |

## Left out

- Flask routing, `render_template`, `jsonify`, the `/`, `/login` and `/dashboard` routes, and the HTTP status. Both answers of `/predict` are sent with status 200, so the model does not carry a status.
- Loading the model and the column list with joblib, reading the YAML parameters and the CSV, and writing the metrics and model files: this is I/O with no logic of its own.
- `pd.get_dummies(drop_first=True)`, `train_test_split`, `LinearRegression.fit` and `predict`, and the MAE, MSE and R² metrics: library code whose source is not part of this model. The fitted model is a parameter of `Service.Predict`.
- The order of the model-type check: the script cleans, encodes and splits the data before it checks the type (train.py:47-55). `Training.PrepareFit` runs the cleaning and then the check, which gives the same outcome whenever encoding and splitting succeed. `train_test_split` can stop the script before the check: too few rows for `test_size`, a `test_size` out of range, or a missing `test_size` key. That failure is not modelled, so with type `LinearRegression` `Training.PrepareFit` succeeds where the script may stop.
- `:.2f` formatting of the price on the page: `Service.Respond` carries the price as a real number.
- Training.ConvertArea: numbers are exact reals, so IEEE rounding, infinities and NaN are not modelled. `float()` accepts `"inf"`, `"-inf"`, `"nan"` and overflowing texts such as `"1e999"`, so `"inf marla"` converts to infinity in the script. `fillna(0)` (train.py:43) replaces NaN but not infinity, so an infinite area reaches fitting there.
- Service.FloatField: a parsed area is a finite real. In the endpoint `float()` also yields infinity or NaN (for `"inf"`, `"nan"` or `"1e999"`), and such an area reaches `model.predict` (app.py:42) without an error.
- Numbers.ParseInt: reads only ASCII digits with an optional sign. Python's `int()` also accepts `_` separators and non-ASCII decimal digits. Since CPython 3.11, `int()` and `str()` raise `ValueError` beyond 4300 digits by default; `Numbers.ParseInt`, `Numbers.IntToString` and `Numbers.ParseIntRoundTrip` have no such limit. No core member uses this concrete parser.
- Numbers.ParseFloat: reads only plain decimals with an optional sign. Exponents, `inf`, `nan` and `_` separators are not read. The core functions take the parser as a parameter, so they do not depend on this.
- Text.LowerAt: `lower()` is modelled for ASCII letters only. Other scripts' case mappings are not modelled.
- Service.ErrorMessage: the messages follow CPython's wording, but the quoting of the offending text uses single quotes only. Python's `repr` switches to double quotes and escapes for some texts.
- Frame.Reindex: requires the row's column names to be distinct, since pandas refuses to reindex a frame with repeated labels. The encoded row is proved to have distinct names (`Service.EncodeShape`).
- Frame.DropColumn: requires the column to be present, since pandas raises `KeyError` otherwise. The `city` column is proved present before the drop.
