/** `predict_transaction`: one raw transaction record becomes a one-row
    frame, gains hour, weekday and month features parsed from its date and
    time, has its categorical fields one-hot encoded, is aligned with the 28
    training features and has its five numeric features scaled before the
    classifier sees it. The scaler and the classifier are parameters. */
module FeaturePipeline {
  import opened Common
  import opened Calendar
  import opened Frames
  import opened Dummies

  /** The raw fields the classifier reads, by name. */
  const AmountField := "Transaction_Amount"
  const PreviousCountField := "Previous_Transaction_Count"
  const DistanceField := "Distance_Between_Transactions_km"
  const MinutesSinceLastField := "Time_Since_Last_Transaction_min"
  const VelocityField := "Transaction_Velocity"
  const LocationField := "Transaction_Location"
  const CardTypeField := "Card_Type"
  const CurrencyField := "Transaction_Currency"
  const StatusField := "Transaction_Status"
  const AuthenticationField := "Authentication_Method"
  const CategoryField := "Transaction_Category"

  const CategoricalColsForOhe: seq<string> :=
    [LocationField, CardTypeField, CurrencyField, StatusField, AuthenticationField, CategoryField]

  const NumericalColsToScale: seq<string> :=
    [AmountField, PreviousCountField, DistanceField, MinutesSinceLastField, VelocityField]

  const DateField := "Transaction_Date"
  const TimeField := "Transaction_Time"
  const DateTimeField := "Transaction_DateTime"
  const HourFeature := "Transaction_Hour"
  const DayOfWeekFeature := "Transaction_DayOfWeek"
  const MonthFeature := "Transaction_Month"

  /** The indicator columns the classifier was trained on. */
  const IndicatorFeatures: seq<string> := [
    "Transaction_Location_Bukhara", "Transaction_Location_Fergana", "Transaction_Location_Jizzakh",
    "Transaction_Location_Kashkadarya", "Transaction_Location_Khorezm", "Transaction_Location_Namangan",
    "Transaction_Location_Navoiy", "Transaction_Location_Samarkand", "Transaction_Location_Sirdarya",
    "Transaction_Location_Surkhandarya", "Transaction_Location_Tashkent",
    "Card_Type_UzCard", "Transaction_Currency_UZS",
    "Transaction_Status_Reversed", "Transaction_Status_Successful",
    "Authentication_Method_Biometric", "Authentication_Method_Password",
    "Transaction_Category_Cash Out", "Transaction_Category_Payment", "Transaction_Category_Transfer"]

  /** The classifier's input columns, in its order. */
  const FinalModelFeatures: seq<string> :=
    NumericalColsToScale + [HourFeature, DayOfWeekFeature, MonthFeature] + IndicatorFeatures

  lemma FeatureListShape()
    ensures |FinalModelFeatures| == 28
    ensures FinalModelFeatures[..5] == NumericalColsToScale
    ensures FinalModelFeatures[5..8] == [HourFeature, DayOfWeekFeature, MonthFeature]
    ensures FinalModelFeatures[8..] == IndicatorFeatures
  {
  }

  /** No training feature is a raw categorical field or a label step 1 drops. */
  lemma FeaturesAreNotRawFields()
    ensures forall n | n in FinalModelFeatures :: n !in CategoricalColsForOhe && n !in DroppedAfterParse
  {
    FeaturesAreNotCategories();
    FeaturesAreNotDropped();
  }

  lemma FeaturesAreNotCategories()
    ensures forall n | n in FinalModelFeatures :: n !in CategoricalColsForOhe
  {
  }

  lemma FeaturesAreNotDropped()
    ensures forall n | n in FinalModelFeatures :: n !in DroppedAfterParse
  {
  }

  /** No categorical field is a label step 1 assigns or drops. */
  lemma CategoriesSurviveDateStep()
    ensures forall c | c in CategoricalColsForOhe :: c !in DroppedAfterParse && c != HourFeature
                                                     && c != DayOfWeekFeature && c != MonthFeature
  {
  }

  // ---------------------------------------------------------------------
  // `pd.DataFrame([raw_input_data])`

  /** A Python dict: its entries in insertion order. */
  type Record = seq<(string, Value)>

  function Keys(rec: Record): (keys: seq<string>)
    ensures |keys| == |rec| && forall i | 0 <= i < |rec| :: keys[i] == rec[i].0
  {
    seq(|rec|, i requires 0 <= i < |rec| => rec[i].0)
  }

  /** `rec.get(key)`. */
  function Lookup(rec: Record, key: string): (r: Option<Value>)
    ensures r.Some? <==> key in Keys(rec)
    ensures r.Some? ==> (key, r.value) in rec
  {
    if |rec| == 0 then None
    else if rec[0].0 == key then Some(rec[0].1)
    else
      assert Keys(rec) == [rec[0].0] + Keys(rec[1..]);
      Lookup(rec[1..], key)
  }

  /** In a record with distinct keys, each key finds its own entry. */
  lemma {:induction false} LookupAt(rec: Record, i: nat)
    requires Distinct(Keys(rec)) && i < |rec|
    ensures Lookup(rec, rec[i].0) == Some(rec[i].1)
  {
    if i > 0 {
      assert Keys(rec)[0] != Keys(rec)[i];
      assert Keys(rec[1..]) == Keys(rec)[1..];
      assert rec[1..][i - 1] == rec[i];
      LookupAt(rec[1..], i - 1);
    }
  }

  lemma KeysCons(rec: Record)
    requires |rec| > 0
    ensures Keys(rec) == [rec[0].0] + Keys(rec[1..])
  {
    assert forall i | 1 <= i < |rec| :: rec[i] == rec[1..][i - 1];
  }

  function RecordColumns(rec: Record): (cols: seq<Column>)
    ensures Names(cols) == Keys(rec) && Tall(cols, 1)
  {
    if |rec| == 0 then []
    else
      var rest := RecordColumns(rec[1..]);
      var c := Column(rec[0].0, [rec[0].1]);
      NamesCons(c, rest);
      KeysCons(rec);
      TallCons(c, rest, 1);
      [c] + rest
  }

  /** A frame of one row whose columns are the record's keys, in order. */
  function FromRecord(rec: Record): (f: Frame)
    ensures f.height == 1 && Names(f.columns) == Keys(rec)
    ensures Distinct(Keys(rec)) ==> WellFormed(f)
  {
    Frame(1, RecordColumns(rec))
  }

  lemma {:induction false} FindRecord(rec: Record, key: string)
    ensures Find(RecordColumns(rec), key)
         == match Lookup(rec, key) case Some(v) => Some([v]) case None => None
  {
    if |rec| > 0 {
      var cols := RecordColumns(rec);
      assert cols[1..] == RecordColumns(rec[1..]);
      FindRecord(rec[1..], key);
    }
  }

  // ---------------------------------------------------------------------
  // Step 1: date and time features

  /** One row's date and time, joined with a blank and parsed as
      `pd.to_datetime(..., format='%m/%d/%Y %H:%M')` parses it. */
  function ParseRow(date: Value, time: Value): (r: Option<Stamp>)
    requires date.Str? && time.Str?
    ensures r.Some? ==> IsValidDate(r.value.date) && IsValidTime(r.value.time) && InTimestampRange(r.value)
  {
    ParseStamp(date.s + " " + time.s)
  }

  /** Each row's own timestamp, or None where that row does not parse. */
  function RowStamps(dates: seq<Value>, times: seq<Value>): (rows: seq<Option<Stamp>>)
    requires AllText(dates) && AllText(times) && |dates| == |times|
    ensures |rows| == |dates|
  {
    seq(|dates|, i requires 0 <= i < |dates| => ParseRow(dates[i], times[i]))
  }

  /** A conversion succeeds only as a whole: one row that does not parse
      makes `to_datetime` raise. */
  function AllParsed(rows: seq<Option<Stamp>>): (r: Option<seq<Stamp>>)
    ensures r.Some? ==> |r.value| == |rows|
  {
    if |rows| == 0 then Some([])
    else
      match (rows[0], AllParsed(rows[1..]))
      case (Some(s), Some(rest)) => Some([s] + rest)
      case _ => None
  }

  /** Row `i` of a whole conversion is that row's own result, and a row
      that fails fails the whole. */
  lemma {:induction false} AllParsedRow(rows: seq<Option<Stamp>>, i: nat)
    requires i < |rows|
    ensures AllParsed(rows).Some? ==> rows[i] == Some(AllParsed(rows).value[i])
    ensures rows[i].None? ==> AllParsed(rows).None?
  {
    if i > 0 {
      AllParsedRow(rows[1..], i - 1);
      assert rows[1..][i - 1] == rows[i];
    }
  }

  /** When every row succeeds, the whole does. */
  lemma {:induction false} AllParsedEvery(rows: seq<Option<Stamp>>)
    requires forall i | 0 <= i < |rows| :: rows[i].Some?
    ensures AllParsed(rows).Some?
  {
    if |rows| > 0 {
      assert rows[0].Some?;
      assert forall i | 0 <= i < |rows| - 1 :: rows[1..][i] == rows[i + 1];
      AllParsedEvery(rows[1..]);
    }
  }

  lemma AllParsedSingle(row: Option<Stamp>)
    ensures AllParsed([row]) == match row case Some(s) => Some([s]) case None => None
  {
    assert [row][1..] == [];
    if row.Some? {
      assert [row.value] + [] == [row.value];
    }
  }

  /** The conversion of whole columns: every row must parse, or it fails. */
  function ParseColumn(dates: seq<Value>, times: seq<Value>): (r: Option<seq<Stamp>>)
    requires AllText(dates) && AllText(times) && |dates| == |times|
    ensures r.Some? ==> |r.value| == |dates|
  {
    AllParsed(RowStamps(dates, times))
  }

  /** Row `i` of a converted column is that row's own timestamp, and a row
      that does not parse fails the whole column. */
  lemma ParseColumnRow(dates: seq<Value>, times: seq<Value>, i: nat)
    requires AllText(dates) && AllText(times) && |dates| == |times| && i < |dates|
    ensures ParseColumn(dates, times).Some? ==> ParseRow(dates[i], times[i]) == Some(ParseColumn(dates, times).value[i])
    ensures ParseRow(dates[i], times[i]).None? ==> ParseColumn(dates, times).None?
  {
    AllParsedRow(RowStamps(dates, times), i);
  }

  /** Every timestamp of a converted column is a valid date and time. */
  lemma ParseColumnValid(dates: seq<Value>, times: seq<Value>)
    requires AllText(dates) && AllText(times) && |dates| == |times| && ParseColumn(dates, times).Some?
    ensures ValidStamps(ParseColumn(dates, times).value)
  {
    forall i | 0 <= i < |dates|
      ensures IsValidDate(ParseColumn(dates, times).value[i].date) && IsValidTime(ParseColumn(dates, times).value[i].time)
    {
      ParseColumnRow(dates, times, i);
    }
  }

  /** A column whose every row parses converts. */
  lemma ParseColumnAllRows(dates: seq<Value>, times: seq<Value>)
    requires AllText(dates) && AllText(times) && |dates| == |times|
    requires forall i | 0 <= i < |dates| :: ParseRow(dates[i], times[i]).Some?
    ensures ParseColumn(dates, times).Some?
  {
    AllParsedEvery(RowStamps(dates, times));
  }

  lemma ParseColumnSingle(d: Value, t: Value)
    requires d.Str? && t.Str?
    ensures ParseColumn([d], [t]) == match ParseRow(d, t) case Some(s) => Some([s]) case None => None
  {
    assert RowStamps([d], [t]) == [ParseRow(d, t)];
    AllParsedSingle(ParseRow(d, t));
  }

  predicate ValidStamps(stamps: seq<Stamp>) {
    forall i | 0 <= i < |stamps| :: IsValidDate(stamps[i].date) && IsValidTime(stamps[i].time)
  }

  /** The parsed timestamps, or why there are none: the date column is
      looked up and joined with ' ' before the time column is looked up. */
  function ParsedStamps(f: Frame): (r: Result<seq<Stamp>, PipelineError>)
    requires WellFormed(f)
    ensures r.Ok? ==> |r.value| == f.height && ValidStamps(r.value)
  {
    match Find(f.columns, DateField)
    case None => Err(MissingColumns([DateField]))
    case Some(dates) =>
      if !AllText(dates) then Err(NotText(DateField))
      else match Find(f.columns, TimeField)
      case None => Err(MissingColumns([TimeField]))
      case Some(times) =>
        if !AllText(times) then Err(NotText(TimeField))
        else
          FindHeight(f.columns, f.height, DateField);
          FindHeight(f.columns, f.height, TimeField);
          match ParseColumn(dates, times)
          case None => Err(BadDateTime)
          case Some(stamps) =>
            ParseColumnValid(dates, times);
            Ok(stamps)
  }

  const DroppedAfterParse: seq<string> := [DateField, TimeField, DateTimeField]

  function Hours(stamps: seq<Stamp>): (v: seq<Value>)
    ensures |v| == |stamps| && forall i | 0 <= i < |stamps| :: v[i] == Num(stamps[i].time.hour as real)
  {
    seq(|stamps|, i requires 0 <= i < |stamps| => Num(stamps[i].time.hour as real))
  }

  function Weekdays(stamps: seq<Stamp>): (v: seq<Value>)
    requires ValidStamps(stamps)
    ensures |v| == |stamps| && forall i | 0 <= i < |stamps| :: v[i] == Num(Weekday(stamps[i].date) as real)
  {
    seq(|stamps|, i requires 0 <= i < |stamps| => Num(Weekday(stamps[i].date) as real))
  }

  function Months(stamps: seq<Stamp>): (v: seq<Value>)
    ensures |v| == |stamps| && forall i | 0 <= i < |stamps| :: v[i] == Num(stamps[i].date.month as real)
  {
    seq(|stamps|, i requires 0 <= i < |stamps| => Num(stamps[i].date.month as real))
  }

  /** Assigns the timestamp, hour, weekday and month columns, then drops the
      date, the time and the timestamp. */
  function WithDateFeatures(f: Frame, stamps: seq<Stamp>): (r: Frame)
    requires WellFormed(f) && |stamps| == f.height && ValidStamps(stamps)
    ensures WellFormed(r) && r.height == f.height
  {
    var v0 := seq(|stamps|, i requires 0 <= i < |stamps| => When(stamps[i]));
    var c1 := SetColumn(f.columns, DateTimeField, v0);
    var c2 := SetColumn(c1, HourFeature, Hours(stamps));
    var c3 := SetColumn(c2, DayOfWeekFeature, Weekdays(stamps));
    var c4 := SetColumn(c3, MonthFeature, Months(stamps));
    SetColumnWellFormed(f.columns, f.height, DateTimeField, v0);
    SetColumnWellFormed(c1, f.height, HourFeature, Hours(stamps));
    SetColumnWellFormed(c2, f.height, DayOfWeekFeature, Weekdays(stamps));
    SetColumnWellFormed(c3, f.height, MonthFeature, Months(stamps));
    WithoutWellFormed(c4, f.height, DroppedAfterParse);
    Frame(f.height, Without(c4, DroppedAfterParse))
  }

  function AddDateFeatures(f: Frame): (r: Result<Frame, PipelineError>)
    requires WellFormed(f)
    ensures r.Ok? ==> WellFormed(r.value) && r.value.height == f.height
  {
    match ParsedStamps(f)
    case Err(e) => Err(e)
    case Ok(stamps) => Ok(WithDateFeatures(f, stamps))
  }

  /** What each label reads after step 1: the three features come from the
      timestamps, the three dropped labels are gone, all else is as before. */
  lemma FindWithDateFeatures(f: Frame, stamps: seq<Stamp>, name: string)
    requires WellFormed(f) && |stamps| == f.height && ValidStamps(stamps)
    ensures Find(WithDateFeatures(f, stamps).columns, name)
         == if name in DroppedAfterParse then None
            else if name == HourFeature then Some(Hours(stamps))
            else if name == DayOfWeekFeature then Some(Weekdays(stamps))
            else if name == MonthFeature then Some(Months(stamps))
            else Find(f.columns, name)
  {
    var v0 := seq(|stamps|, i requires 0 <= i < |stamps| => When(stamps[i]));
    var c1 := SetColumn(f.columns, DateTimeField, v0);
    var c2 := SetColumn(c1, HourFeature, Hours(stamps));
    var c3 := SetColumn(c2, DayOfWeekFeature, Weekdays(stamps));
    var c4 := SetColumn(c3, MonthFeature, Months(stamps));
    SetColumnWellFormed(f.columns, f.height, DateTimeField, v0);
    SetColumnWellFormed(c1, f.height, HourFeature, Hours(stamps));
    SetColumnWellFormed(c2, f.height, DayOfWeekFeature, Weekdays(stamps));
    FindSetColumn(f.columns, DateTimeField, v0, name);
    FindSetColumn(c1, HourFeature, Hours(stamps), name);
    FindSetColumn(c2, DayOfWeekFeature, Weekdays(stamps), name);
    FindSetColumn(c3, MonthFeature, Months(stamps), name);
    FindWithout(c4, DroppedAfterParse, name);
  }

  /** After step 1 the date, the time and the intermediate timestamp are gone. */
  lemma DateColumnsDropped(f: Frame)
    requires WellFormed(f) && AddDateFeatures(f).Ok?
    ensures forall n | n in DroppedAfterParse :: n !in Names(AddDateFeatures(f).value.columns)
  {
    forall n | n in DroppedAfterParse ensures n !in Names(AddDateFeatures(f).value.columns) {
      FindWithDateFeatures(f, ParsedStamps(f).value, n);
    }
  }

  /** Row `i` after step 1 holds the hour (0..23), the weekday (0..6, Monday
      0) and the month (1..12) of its timestamp. */
  lemma DateFeatureRanges(f: Frame, i: nat)
    requires WellFormed(f) && AddDateFeatures(f).Ok? && i < f.height
    ensures var cols := AddDateFeatures(f).value.columns;
            var s := ParsedStamps(f).value[i];
            && Find(cols, HourFeature) == Some(Hours(ParsedStamps(f).value))
            && Find(cols, DayOfWeekFeature) == Some(Weekdays(ParsedStamps(f).value))
            && Find(cols, MonthFeature) == Some(Months(ParsedStamps(f).value))
            && 0 <= s.time.hour <= 23 && 0 <= Weekday(s.date) <= 6 && 1 <= s.date.month <= 12
  {
    var stamps := ParsedStamps(f).value;
    FindWithDateFeatures(f, stamps, HourFeature);
    FindWithDateFeatures(f, stamps, DayOfWeekFeature);
    FindWithDateFeatures(f, stamps, MonthFeature);
  }

  // ---------------------------------------------------------------------
  // Steps 2 to 4 and the prediction

  /** Steps 2 and 3: `get_dummies` over the fields `encode`, then
      `reindex` against `features`. */
  function EncodeParsed(f: Frame, encode: seq<string>, features: seq<string>): (r: Result<Frame, PipelineError>)
    requires WellFormed(f)
    ensures r.Ok? ==> r.value.height == f.height && Names(r.value.columns) == features
                      && Tall(r.value.columns, f.height)
  {
    match GetDummies(f, encode)
    case Err(e) => Err(e)
    case Ok(g) =>
      GetDummiesOk(f, encode);
      ReindexTall(g, features);
      Ok(Reindex(g, features))
  }

  /** Steps 1 to 3: the one-row frame of the 28 training features. */
  function Encode(rec: Record): (r: Result<Frame, PipelineError>)
    requires Distinct(Keys(rec))
    ensures r.Ok? ==> r.value.height == 1 && Names(r.value.columns) == FinalModelFeatures
                      && Tall(r.value.columns, 1)
  {
    match AddDateFeatures(FromRecord(rec))
    case Err(e) => Err(e)
    case Ok(f1) => EncodeParsed(f1, CategoricalColsForOhe, FinalModelFeatures)
  }

  /** `df[targets] = scaler.transform(df[targets])`, with the fitted scaler
      given cell by cell: it maps a value of the named column to its scaled value. */
  function ScaleColumns(f: Frame, targets: seq<string>, scale: (string, Value) -> Value): (r: Frame)
    ensures r.height == f.height && Names(r.columns) == Names(f.columns)
    ensures Tall(f.columns, f.height) ==> Tall(r.columns, r.height)
  {
    Frame(f.height, seq(|f.columns|, j requires 0 <= j < |f.columns| =>
      var c := f.columns[j];
      if c.name in targets
      then Column(c.name, seq(|c.values|, k requires 0 <= k < |c.values| => scale(c.name, c.values[k])))
      else c))
  }

  /** Scaling rewrites the cells of the targets and leaves every other
      column as it was. */
  lemma ScaleOnlyTargets(f: Frame, targets: seq<string>, scale: (string, Value) -> Value, j: nat, k: nat)
    requires j < |f.columns| && k < |f.columns[j].values|
    ensures f.columns[j].name !in targets ==> ScaleColumns(f, targets, scale).columns[j] == f.columns[j]
    ensures f.columns[j].name in targets
        ==> ScaleColumns(f, targets, scale).columns[j].values[k] == scale(f.columns[j].name, f.columns[j].values[k])
  {
  }

  /** Steps 1 to 4: the frame the classifier receives. */
  function Preprocess(rec: Record, scale: (string, Value) -> Value): (r: Result<Frame, PipelineError>)
    requires Distinct(Keys(rec))
    ensures r.Ok? <==> Encode(rec).Ok?
    ensures r.Ok? ==> r.value.height == 1 && Names(r.value.columns) == FinalModelFeatures
                      && Tall(r.value.columns, 1)
  {
    match Encode(rec)
    case Err(e) => Err(e)
    case Ok(f) => Ok(ScaleColumns(f, NumericalColsToScale, scale))
  }

  /** The first row of a frame, as `model.predict(df)[0]` reads it. */
  function FirstRow(f: Frame): (row: seq<Value>)
    requires Tall(f.columns, f.height) && f.height > 0
    ensures |row| == |f.columns| && forall j | 0 <= j < |row| :: row[j] == f.columns[j].values[0]
  {
    seq(|f.columns|, j requires 0 <= j < |f.columns| => f.columns[j].values[0])
  }

  /** `"Fraud" if prediction == 1 else "Legit"`. */
  function LabelOf(prediction: int): (verdict: string)
    ensures verdict == "Fraud" <==> prediction == 1
    ensures verdict == "Fraud" || verdict == "Legit"
  {
    if prediction == 1 then "Fraud" else "Legit"
  }

  /** The verdict and the fraud probability of one transaction. */
  function PredictTransaction(rec: Record, scale: (string, Value) -> Value,
                              classify: seq<Value> -> int, fraudProbability: seq<Value> -> real)
    : (r: Result<(string, real), PipelineError>)
    requires Distinct(Keys(rec))
    ensures r.Ok? <==> Encode(rec).Ok?
    ensures r.Ok? ==> var row := FirstRow(Preprocess(rec, scale).value);
                      (r.value.0 == "Fraud" <==> classify(row) == 1) && r.value.1 == fraudProbability(row)
  {
    match Preprocess(rec, scale)
    case Err(e) => Err(e)
    case Ok(f) =>
      var row := FirstRow(f);
      Ok((LabelOf(classify(row)), fraudProbability(row)))
  }

  // ---------------------------------------------------------------------
  // What the pipeline computes, stated on the record

  /** The record's value for a key; the reindex fill value 0 when it has none. */
  function RecordValue(rec: Record, key: string): Value {
    match Lookup(rec, key)
    case Some(v) => v
    case None => Num(0.0)
  }

  /** The timestamp the record's date and time parse to, if both are text and parse. */
  function RecordStamp(rec: Record): (r: Option<Stamp>)
    ensures r.Some? ==> IsValidDate(r.value.date) && IsValidTime(r.value.time)
  {
    match (Lookup(rec, DateField), Lookup(rec, TimeField))
    case (Some(d), Some(t)) => if d.Str? && t.Str? then ParseRow(d, t) else None
    case _ => None
  }

  /** Each categorical field is present and holds text. */
  predicate CategoriesAreText(rec: Record) {
    forall c | c in CategoricalColsForOhe :: Lookup(rec, c).Some? && Lookup(rec, c).value.Str?
  }

  lemma CategoriesAreTextOf(rec: Record, location: string, cardType: string, currency: string,
                            status: string, authentication: string, category: string)
    requires Lookup(rec, LocationField) == Some(Str(location)) && Lookup(rec, CardTypeField) == Some(Str(cardType))
    requires Lookup(rec, CurrencyField) == Some(Str(currency)) && Lookup(rec, StatusField) == Some(Str(status))
    requires Lookup(rec, AuthenticationField) == Some(Str(authentication))
    requires Lookup(rec, CategoryField) == Some(Str(category))
    ensures CategoriesAreText(rec)
  {
  }

  /** The unscaled value of a feature: a date feature comes from the
      timestamp, any other feature is the record's own value or 0. */
  function FeatureValue(rec: Record, s: Stamp, name: string): Value
    requires IsValidDate(s.date)
  {
    if name == HourFeature then Num(s.time.hour as real)
    else if name == DayOfWeekFeature then Num(Weekday(s.date) as real)
    else if name == MonthFeature then Num(s.date.month as real)
    else RecordValue(rec, name)
  }

  lemma FeatureValueOf(rec: Record, s: Stamp, name: string)
    requires IsValidDate(s.date)
    ensures name in [HourFeature, DayOfWeekFeature, MonthFeature] ==> FeatureValue(rec, s, name) == FeatureValue([], s, name)
    ensures name !in [HourFeature, DayOfWeekFeature, MonthFeature] ==> FeatureValue(rec, s, name) == RecordValue(rec, name)
  {
  }

  /** The frame of a record yields a timestamp exactly when the record's
      date and time are text that parses, and then it yields that one. */
  lemma RecordDateTime(rec: Record)
    requires Distinct(Keys(rec))
    ensures ParsedStamps(FromRecord(rec)).Ok? <==> RecordStamp(rec).Some?
    ensures ParsedStamps(FromRecord(rec)).Ok? ==> ParsedStamps(FromRecord(rec)).value == [RecordStamp(rec).value]
  {
    FindRecord(rec, DateField);
    FindRecord(rec, TimeField);
    match (Lookup(rec, DateField), Lookup(rec, TimeField))
    case (Some(d), Some(t)) =>
      AllTextSingle(d);
      AllTextSingle(t);
      if d.Str? && t.Str? {
        ParseColumnSingle(d, t);
      }
    case _ =>
  }

  /** Step 1 on a frame of one row with timestamp `s`. */
  lemma OneRowDateFeatures(f: Frame, s: Stamp, name: string)
    requires WellFormed(f) && f.height == 1 && IsValidDate(s.date) && IsValidTime(s.time)
    ensures Find(WithDateFeatures(f, [s]).columns, name)
         == if name in DroppedAfterParse then None
            else if name in [HourFeature, DayOfWeekFeature, MonthFeature] then Some([FeatureValue([], s, name)])
            else Find(f.columns, name)
  {
    FindWithDateFeatures(f, [s], name);
    assert Hours([s]) == [Num(s.time.hour as real)];
    assert Weekdays([s]) == [Num(Weekday(s.date) as real)];
    assert Months([s]) == [Num(s.date.month as real)];
  }

  /** Step 1 on a record: it succeeds exactly when the date and time parse,
      and then every label reads the feature value of the record. */
  lemma DateStepOnRecord(rec: Record, name: string)
    requires Distinct(Keys(rec))
    ensures AddDateFeatures(FromRecord(rec)).Ok? <==> RecordStamp(rec).Some?
    ensures AddDateFeatures(FromRecord(rec)).Ok? ==>
              Find(AddDateFeatures(FromRecord(rec)).value.columns, name)
              == if name in DroppedAfterParse then None
                 else if name in [HourFeature, DayOfWeekFeature, MonthFeature] || Lookup(rec, name).Some?
                 then Some([FeatureValue(rec, RecordStamp(rec).value, name)])
                 else None
  {
    RecordDateTime(rec);
    if RecordStamp(rec).Some? {
      var s := RecordStamp(rec).value;
      var f := FromRecord(rec);
      assert ParsedStamps(f) == Ok([s]);
      assert AddDateFeatures(f) == Ok(WithDateFeatures(f, [s]));
      OneRowDateFeatures(f, s, name);
      FindRecord(rec, name);
      if name !in DroppedAfterParse {
        FeatureValueOf(rec, s, name);
        FeatureValueOf([], s, name);
      }
    }
  }

  /** Steps 2 and 3 on one row: they fail exactly when a field to encode is
      absent or not text, and then each feature reads the column of that
      label, or zeros: `get_dummies` adds no column. */
  lemma EncodeParsedOneRow(f: Frame, encode: seq<string>, features: seq<string>, j: nat)
    requires WellFormed(f) && f.height == 1 && j < |features|
    requires features[j] !in encode
    ensures EncodeParsed(f, encode, features).Ok? <==> Encodable(f.columns, encode)
    ensures EncodeParsed(f, encode, features).Ok? ==>
              EncodeParsed(f, encode, features).value.columns[j].values
              == match Find(f.columns, features[j]) case Some(v) => v case None => Zeros(1)
  {
    GetDummiesOk(f, encode);
    if Encodable(f.columns, encode) {
      GetDummiesSingleRow(f, encode);
      var g := GetDummies(f, encode).value;
      WithoutWellFormed(f.columns, 1, encode);
      ReindexColumn(g, features, j);
      FindWithout(f.columns, encode, features[j]);
    }
  }

  /** The categorical fields read after step 1 what the record holds. */
  lemma CategoriesAfterDateStep(rec: Record)
    requires Distinct(Keys(rec)) && AddDateFeatures(FromRecord(rec)).Ok?
    ensures Encodable(AddDateFeatures(FromRecord(rec)).value.columns, CategoricalColsForOhe) <==> CategoriesAreText(rec)
  {
    FeaturesAreNotRawFields();
    CategoriesSurviveDateStep();
    var f1 := AddDateFeatures(FromRecord(rec)).value;
    forall c | c in CategoricalColsForOhe
      ensures Find(f1.columns, c) == match Lookup(rec, c) case Some(v) => Some([v]) case None => None
    {
      DateStepOnRecord(rec, c);
    }
    forall c | c in CategoricalColsForOhe && Lookup(rec, c).Some?
      ensures AllText([Lookup(rec, c).value]) <==> Lookup(rec, c).value.Str?
    {
      AllTextSingle(Lookup(rec, c).value);
    }
  }

  /** Steps 1 to 3 succeed exactly when the date and time parse and the six
      categorical fields are text. */
  lemma EncodeOk(rec: Record)
    requires Distinct(Keys(rec))
    ensures Encode(rec).Ok? <==> RecordStamp(rec).Some? && CategoriesAreText(rec)
  {
    DateStepOnRecord(rec, DateField);
    if AddDateFeatures(FromRecord(rec)).Ok? {
      FeaturesAreNotRawFields();
      CategoriesSurviveDateStep();
      EncodeParsedOneRow(AddDateFeatures(FromRecord(rec)).value, CategoricalColsForOhe, FinalModelFeatures, 0);
      CategoriesAfterDateStep(rec);
    }
  }

  /** Each feature after step 3 holds its feature value: no indicator is ever
      set by the encoding, because a single row holds only the category
      drop-first removes. */
  lemma EncodeColumn(rec: Record, j: nat)
    requires Distinct(Keys(rec)) && Encode(rec).Ok? && j < |FinalModelFeatures|
    ensures RecordStamp(rec).Some?
    ensures Encode(rec).value.columns[j].values == [FeatureValue(rec, RecordStamp(rec).value, FinalModelFeatures[j])]
  {
    var n := FinalModelFeatures[j];
    FeaturesAreNotRawFields();
    assert n !in CategoricalColsForOhe && n !in DroppedAfterParse;
    DateStepOnRecord(rec, n);
    var f1 := AddDateFeatures(FromRecord(rec)).value;
    assert Encode(rec) == EncodeParsed(f1, CategoricalColsForOhe, FinalModelFeatures);
    EncodeParsedOneRow(f1, CategoricalColsForOhe, FinalModelFeatures, j);
    FoundFeature(Find(f1.columns, n), rec, RecordStamp(rec).value, n);
  }

  /** What the reindex reads for a kept feature is its feature value. */
  lemma FoundFeature(found: Option<seq<Value>>, rec: Record, s: Stamp, n: string)
    requires IsValidDate(s.date) && n !in DroppedAfterParse
    requires found == if n in [HourFeature, DayOfWeekFeature, MonthFeature] || Lookup(rec, n).Some?
                      then Some([FeatureValue(rec, s, n)]) else None
    ensures (match found case Some(v) => v case None => Zeros(1)) == [FeatureValue(rec, s, n)]
  {
    if found.None? {
      FeatureValueOf(rec, s, n);
      assert Zeros(1) == [Num(0.0)];
    }
  }

  /** The feature vector the classifier receives: the five numeric features
      are the record's values through the scaler, the three date features
      come from the parsed timestamp, and every other feature is the
      record's own value for that name or 0. */
  lemma PreprocessFeatures(rec: Record, scale: (string, Value) -> Value, j: nat)
    requires Distinct(Keys(rec)) && Preprocess(rec, scale).Ok? && j < |FinalModelFeatures|
    ensures RecordStamp(rec).Some?
    ensures var n := FinalModelFeatures[j];
            var v := FeatureValue(rec, RecordStamp(rec).value, n);
            Preprocess(rec, scale).value.columns[j] == Column(n, [if n in NumericalColsToScale then scale(n, v) else v])
  {
    EncodeColumn(rec, j);
    var f := Encode(rec).value;
    assert f.columns[j].name == FinalModelFeatures[j];
    ScaleOnlyTargets(f, NumericalColsToScale, scale, j, 0);
  }

  /** The first five features: the record's numeric values through the scaler. */
  lemma NumericFeature(rec: Record, scale: (string, Value) -> Value, j: nat, v: Value)
    requires Distinct(Keys(rec)) && Preprocess(rec, scale).Ok? && j < 5
    requires Lookup(rec, NumericalColsToScale[j]) == Some(v)
    ensures Preprocess(rec, scale).value.columns[j] == Column(NumericalColsToScale[j], [scale(NumericalColsToScale[j], v)])
  {
    FeatureListShape();
    NumericsAreNotDateFeatures();
    PreprocessFeatures(rec, scale, j);
    FeatureValueOf(rec, RecordStamp(rec).value, NumericalColsToScale[j]);
  }

  /** Features 5 to 7: the hour, weekday and month of the record's
      timestamp, unscaled. */
  lemma DateFeatures(rec: Record, scale: (string, Value) -> Value)
    requires Distinct(Keys(rec)) && Preprocess(rec, scale).Ok?
    ensures RecordStamp(rec).Some?
    ensures var s := RecordStamp(rec).value;
            var cols := Preprocess(rec, scale).value.columns;
            && cols[5] == Column(HourFeature, [Num(s.time.hour as real)])
            && cols[6] == Column(DayOfWeekFeature, [Num(Weekday(s.date) as real)])
            && cols[7] == Column(MonthFeature, [Num(s.date.month as real)])
  {
    FeatureListShape();
    NumericsAreNotDateFeatures();
    PreprocessFeatures(rec, scale, 5);
    PreprocessFeatures(rec, scale, 6);
    PreprocessFeatures(rec, scale, 7);
  }

  lemma NumericsAreNotDateFeatures()
    ensures forall n | n in NumericalColsToScale :: n !in [HourFeature, DayOfWeekFeature, MonthFeature]
  {
  }

  /** An indicator feature the record has no key for reaches the classifier as 0. */
  lemma IndicatorZero(rec: Record, scale: (string, Value) -> Value, j: nat)
    requires Distinct(Keys(rec)) && Preprocess(rec, scale).Ok? && 8 <= j < |FinalModelFeatures|
    requires FinalModelFeatures[j] !in Keys(rec)
    ensures Preprocess(rec, scale).value.columns[j].values == [Num(0.0)]
  {
    var n := FinalModelFeatures[j];
    FeatureListShape();
    IndicatorsAreNotValues();
    assert n == IndicatorFeatures[j - 8];
    PreprocessFeatures(rec, scale, j);
    FeatureValueOf(rec, RecordStamp(rec).value, n);
  }

  /** A record that has none of the indicator names among its keys, such as
      the one the prediction page sends, always reaches the classifier with
      all 20 indicators 0. */
  lemma IndicatorsAlwaysZero(rec: Record, scale: (string, Value) -> Value)
    requires Distinct(Keys(rec)) && Preprocess(rec, scale).Ok?
    requires forall k | k in Keys(rec) :: k !in IndicatorFeatures
    ensures forall j | 8 <= j < |FinalModelFeatures| :: Preprocess(rec, scale).value.columns[j].values == [Num(0.0)]
  {
    FeatureListShape();
    forall j | 8 <= j < |FinalModelFeatures| ensures Preprocess(rec, scale).value.columns[j].values == [Num(0.0)] {
      assert FinalModelFeatures[j] == IndicatorFeatures[j - 8];
      IndicatorZero(rec, scale, j);
    }
  }

  /** An indicator is neither a numeric nor a date feature. */
  lemma IndicatorsAreNotValues()
    ensures forall n | n in IndicatorFeatures
              :: n !in NumericalColsToScale && n !in [HourFeature, DayOfWeekFeature, MonthFeature]
  {
  }
}
