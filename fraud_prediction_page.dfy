/** The prediction page (`pages/2_Fraud_Prediction.py`): the form's fields
    become the 15-entry `raw_input` record, the record goes through
    `predict_transaction`, and a logged-in user's prediction is appended to
    the history table. */
module FraudPredictionPage {
  import opened Common
  import opened Calendar
  import opened Frames
  import opened FeaturePipeline
  import opened CredentialStore
  import opened SessionState

  /** The widgets' values when the form is submitted. */
  datatype Form = Form(amount: real, date: Date, time: Time, location: string, cardType: string,
                       currency: string, status: string, previousCount: int, distanceKm: real,
                       minutesSinceLast: int, authentication: string, velocity: int, category: string)

  const MerchantIdField := "Merchant_ID"
  const DeviceIdField := "Device_ID"

  /** The keys of `raw_input`, in the order the dict literal lists them. */
  const RawInputKeys: seq<string> := [
    AmountField, DateField, TimeField, LocationField, CardTypeField, CurrencyField, StatusField,
    PreviousCountField, DistanceField, MinutesSinceLastField, AuthenticationField, VelocityField,
    CategoryField, MerchantIdField, DeviceIdField]

  /** `raw_input`: the date rendered with `%m/%d/%Y`, the time with `%H:%M`,
      and the two identifiers fixed at 0. */
  function RawInput(form: Form): (rec: Record)
    requires IsValidDate(form.date) && IsValidTime(form.time)
    ensures |rec| == 15 && Keys(rec) == RawInputKeys
  {
    [(AmountField, Num(form.amount)),
     (DateField, Str(FormatDate(form.date))),
     (TimeField, Str(FormatTime(form.time))),
     (LocationField, Str(form.location)),
     (CardTypeField, Str(form.cardType)),
     (CurrencyField, Str(form.currency)),
     (StatusField, Str(form.status)),
     (PreviousCountField, Num(form.previousCount as real)),
     (DistanceField, Num(form.distanceKm)),
     (MinutesSinceLastField, Num(form.minutesSinceLast as real)),
     (AuthenticationField, Str(form.authentication)),
     (VelocityField, Num(form.velocity as real)),
     (CategoryField, Str(form.category)),
     (MerchantIdField, Num(0.0)),
     (DeviceIdField, Num(0.0))]
  }

  lemma RawInputKeysDistinct()
    ensures Distinct(RawInputKeys)
  {
  }

  /** No key of `raw_input` is the name of an indicator column. */
  lemma RawInputHasNoIndicator()
    ensures forall k | k in RawInputKeys :: k !in IndicatorFeatures
  {
    AmountAndDateKeysAreNotIndicators();
    CategoricalKeysAreNotIndicators();
    OtherKeysAreNotIndicators();
  }

  lemma AmountAndDateKeysAreNotIndicators()
    ensures forall k | k in RawInputKeys[..3] :: k !in IndicatorFeatures
  {
  }

  lemma CategoricalKeysAreNotIndicators()
    ensures forall k | k in RawInputKeys[3..8] :: k !in IndicatorFeatures
  {
  }

  lemma OtherKeysAreNotIndicators()
    ensures forall k | k in RawInputKeys[8..] :: k !in IndicatorFeatures
  {
  }

  /** An indicator column is never a key of `raw_input`. */
  lemma IndicatorNotRawKey(j: nat)
    requires 8 <= j < 28
    ensures FinalModelFeatures[j] !in RawInputKeys
  {
    FeatureListShape();
    assert FinalModelFeatures[j] == IndicatorFeatures[j - 8];
    RawInputHasNoIndicator();
  }

  /** Steps 1 to 4 of the prediction applied to the form's record. */
  function FormFrame(form: Form, scale: (string, Value) -> Value): Result<Frame, PipelineError>
    requires IsValidDate(form.date) && IsValidTime(form.time)
  {
    RawInputKeysDistinct();
    Preprocess(RawInput(form), scale)
  }

  /** `predict_transaction(raw_input)`. */
  function FormPrediction(form: Form, scale: (string, Value) -> Value,
                          classify: seq<Value> -> int, fraudProbability: seq<Value> -> real)
    : Result<(string, real), PipelineError>
    requires IsValidDate(form.date) && IsValidTime(form.time)
  {
    RawInputKeysDistinct();
    PredictTransaction(RawInput(form), scale, classify, fraudProbability)
  }

  /** The five numeric features in their training order, as the form holds them. */
  function FormNumerics(form: Form): (v: seq<Value>)
    ensures |v| == |NumericalColsToScale| && forall j | 0 <= j < |v| :: v[j].Num?
  {
    [Num(form.amount), Num(form.previousCount as real), Num(form.distanceKm),
     Num(form.minutesSinceLast as real), Num(form.velocity as real)]
  }

  /** Where the `j`-th numeric feature sits in `raw_input`. */
  function NumericSlot(j: nat): (i: nat)
    requires j < 5
    ensures i < 15
  {
    if j == 0 then 0 else if j == 1 then 7 else if j == 2 then 8 else if j == 3 then 9 else 11
  }

  lemma NumericKeys(form: Form, j: nat)
    requires IsValidDate(form.date) && IsValidTime(form.time) && j < 5
    ensures RawInput(form)[NumericSlot(j)] == (NumericalColsToScale[j], FormNumerics(form)[j])
  {
  }

  /** Each key of `raw_input` finds its own entry. */
  lemma RawInputEntry(form: Form, i: nat)
    requires IsValidDate(form.date) && IsValidTime(form.time) && i < 15
    ensures Lookup(RawInput(form), RawInputKeys[i]) == Some(RawInput(form)[i].1)
  {
    RawInputKeysDistinct();
    LookupAt(RawInput(form), i);
  }

  /** Every cell the scaler receives from the page is a number, so
      `scaler.transform` has no text to reject. */
  lemma ScaledInputsAreNumbers(form: Form, j: nat)
    requires IsValidDate(form.date) && IsValidTime(form.time) && j < 5
    ensures Lookup(RawInput(form), NumericalColsToScale[j]).Some?
    ensures Lookup(RawInput(form), NumericalColsToScale[j]).value.Num?
  {
    NumericKeys(form, j);
    RawInputEntry(form, NumericSlot(j));
  }

  /** The record's date and time parse back to the form's date and time
      whenever pandas can represent that moment. */
  lemma RawInputStamp(form: Form)
    requires IsValidDate(form.date) && IsValidTime(form.time)
    ensures RecordStamp(RawInput(form))
         == if InTimestampRange(Stamp(form.date, form.time)) then Some(Stamp(form.date, form.time)) else None
  {
    RawInputEntry(form, 1);
    RawInputEntry(form, 2);
    FormatThenParse(form.date, form.time);
  }

  /** The six categorical fields of `raw_input` are text. */
  lemma RawInputCategories(form: Form)
    requires IsValidDate(form.date) && IsValidTime(form.time)
    ensures CategoriesAreText(RawInput(form))
  {
    RawInputEntry(form, 3);
    RawInputEntry(form, 4);
    RawInputEntry(form, 5);
    RawInputEntry(form, 6);
    RawInputEntry(form, 10);
    RawInputEntry(form, 12);
    CategoriesAreTextOf(RawInput(form), form.location, form.cardType, form.currency, form.status,
                        form.authentication, form.category);
  }

  /** A form reaches the classifier exactly when its moment lies in pandas'
      range: every other field the widgets can produce encodes. */
  lemma FormPredicts(form: Form, scale: (string, Value) -> Value)
    requires IsValidDate(form.date) && IsValidTime(form.time)
    ensures FormFrame(form, scale).Ok? <==> InTimestampRange(Stamp(form.date, form.time))
  {
    RawInputKeysDistinct();
    RawInputStamp(form);
    RawInputCategories(form);
    EncodeOk(RawInput(form));
  }

  /** The first five features are the form's numbers through the scaler. */
  lemma FormNumericFeatures(form: Form, scale: (string, Value) -> Value, j: nat)
    requires IsValidDate(form.date) && IsValidTime(form.time) && InTimestampRange(Stamp(form.date, form.time))
    requires j < 5
    ensures FormFrame(form, scale).Ok?
    ensures FormFrame(form, scale).value.columns[j]
            == Column(NumericalColsToScale[j], [scale(NumericalColsToScale[j], FormNumerics(form)[j])])
  {
    FormPredicts(form, scale);
    RawInputKeysDistinct();
    NumericKeys(form, j);
    RawInputEntry(form, NumericSlot(j));
    NumericFeature(RawInput(form), scale, j, FormNumerics(form)[j]);
  }

  /** Features 5 to 7 are the form's hour, weekday (Monday 0) and month, unscaled. */
  lemma FormDateFeatures(form: Form, scale: (string, Value) -> Value)
    requires IsValidDate(form.date) && IsValidTime(form.time) && InTimestampRange(Stamp(form.date, form.time))
    ensures FormFrame(form, scale).Ok?
    ensures var cols := FormFrame(form, scale).value.columns;
            && cols[5] == Column(HourFeature, [Num(form.time.hour as real)])
            && cols[6] == Column(DayOfWeekFeature, [Num(Weekday(form.date) as real)])
            && cols[7] == Column(MonthFeature, [Num(form.date.month as real)])
  {
    FormPredicts(form, scale);
    RawInputKeysDistinct();
    RawInputStamp(form);
    DateFeatures(RawInput(form), scale);
  }

  /** Features 8 to 27, the indicators, are 0 for every form. */
  lemma FormIndicatorFeatures(form: Form, scale: (string, Value) -> Value, j: nat)
    requires IsValidDate(form.date) && IsValidTime(form.time) && InTimestampRange(Stamp(form.date, form.time))
    requires 8 <= j < 28
    ensures FormFrame(form, scale).Ok?
    ensures FormFrame(form, scale).value.columns[j].values == [Num(0.0)]
  {
    FormPredicts(form, scale);
    RawInputKeysDistinct();
    IndicatorNotRawKey(j);
    IndicatorZero(RawInput(form), scale, j);
  }

  /** The row the classifier sees for an in-range form: the five scaled
      numbers, the hour, weekday and month, and twenty zeros. */
  lemma FormClassifierRow(form: Form, scale: (string, Value) -> Value)
    requires IsValidDate(form.date) && IsValidTime(form.time) && InTimestampRange(Stamp(form.date, form.time))
    ensures FormFrame(form, scale).Ok?
    ensures var row := FirstRow(FormFrame(form, scale).value);
            && |row| == 28
            && (forall j | 0 <= j < 5 :: row[j] == scale(NumericalColsToScale[j], FormNumerics(form)[j]))
            && row[5] == Num(form.time.hour as real)
            && row[6] == Num(Weekday(form.date) as real)
            && row[7] == Num(form.date.month as real)
            && (forall j | 8 <= j < 28 :: row[j] == Num(0.0))
  {
    FormPredicts(form, scale);
    FeatureListShape();
    var row := FirstRow(FormFrame(form, scale).value);
    forall j | 0 <= j < 5 ensures row[j] == scale(NumericalColsToScale[j], FormNumerics(form)[j]) {
      FormNumericFeatures(form, scale, j);
    }
    FormDateFeatures(form, scale);
    forall j | 8 <= j < 28 ensures row[j] == Num(0.0) {
      FormIndicatorFeatures(form, scale, j);
    }
  }

  /** `predict_transaction(raw_input)` returns exactly for in-range forms,
      with the verdict and probability the classifier gives that row. */
  lemma FormPredictionSpec(form: Form, scale: (string, Value) -> Value,
                           classify: seq<Value> -> int, fraudProbability: seq<Value> -> real)
    requires IsValidDate(form.date) && IsValidTime(form.time)
    ensures FormPrediction(form, scale, classify, fraudProbability).Ok? <==> InTimestampRange(Stamp(form.date, form.time))
    ensures FormPrediction(form, scale, classify, fraudProbability).Ok? ==>
              var row := FirstRow(FormFrame(form, scale).value);
              var (verdict, probability) := FormPrediction(form, scale, classify, fraudProbability).value;
              (verdict == "Fraud" <==> classify(row) == 1) && probability == fraudProbability(row)
  {
    FormPredicts(form, scale);
    RawInputKeysDistinct();
  }

  /** The worked example: 01/15/2024 at 14:30 is hour 14 of a Monday in January. */
  lemma ExampleForm(form: Form, scale: (string, Value) -> Value)
    requires form.date == Date(2024, 1, 15) && form.time == Time(14, 30)
    ensures FormFrame(form, scale).Ok?
    ensures var cols := FormFrame(form, scale).value.columns;
            cols[5].values == [Num(14.0)] && cols[6].values == [Num(0.0)] && cols[7].values == [Num(1.0)]
  {
    ExampleIsMonday();
    assert InTimestampRange(Stamp(form.date, form.time));
    FormDateFeatures(form, scale);
  }

  /** What the page shows after a submission. */
  datatype SubmitOutcome =
    | LoginRequired
    | PredictionFailed(error: PipelineError)
    | Predicted(verdict: string, probability: real, recorded: bool)

  /** `if st.session_state.logged_in and st.session_state.user_id`: a
      logged-in session with a non-zero id. */
  predicate MayRecord(loggedIn: bool, userId: Option<int>) {
    loggedIn && userId.Some? && userId.value != 0
  }

  /** After `predict_transaction` returns: an exception stops the page;
      otherwise the verdict is shown and, when the session may record,
      exactly one history row is appended. */
  method ShowPrediction(session: Session, db: Database, rawInput: Record,
                        prediction: Result<(string, real), PipelineError>, now: string)
    returns (outcome: SubmitOutcome)
    requires session.Valid() && db.Valid() && db.hasTransactionsTable
    modifies db
    ensures db.Valid() && db.users == old(db.users) && db.userCounter == old(db.userCounter)
    ensures db.hasUsersTable == old(db.hasUsersTable) && db.hasTransactionsTable == old(db.hasTransactionsTable)
    ensures db.transactionCounter == if outcome.Predicted? && outcome.recorded then old(db.transactionCounter) + 1
                                     else old(db.transactionCounter)
    ensures prediction.Err? ==> outcome == PredictionFailed(prediction.error) && db.transactions == old(db.transactions)
    ensures prediction.Ok? ==>
              var recorded := MayRecord(session.loggedIn, session.userId);
              && outcome == Predicted(prediction.value.0, prediction.value.1, recorded)
              && db.transactions == old(db.transactions)
                   + if recorded
                     then [Transaction(old(db.transactionCounter) + 1, session.userId.value, now, rawInput,
                                       prediction.value.0, prediction.value.1)]
                     else []
  {
    if prediction.Err? {
      return PredictionFailed(prediction.error);
    }
    var (status, prob) := prediction.value;
    if MayRecord(session.loggedIn, session.userId) {
      db.InsertTransaction(session.userId.value, now, rawInput, status, prob);
      outcome := Predicted(status, prob, true);
    } else {
      outcome := Predicted(status, prob, false);
    }
  }

  /** A submission: without a login the form is not shown; otherwise the
      form's record goes through `predict_transaction` and the result is
      shown and recorded as above. */
  method Submit(session: Session, db: Database, form: Form, scale: (string, Value) -> Value,
                classify: seq<Value> -> int, fraudProbability: seq<Value> -> real, now: string)
    returns (outcome: SubmitOutcome)
    requires IsValidDate(form.date) && IsValidTime(form.time)
    requires session.Valid() && db.Valid() && (session.loggedIn ==> db.hasTransactionsTable)
    modifies db
    ensures db.Valid() && db.users == old(db.users) && db.userCounter == old(db.userCounter)
    ensures db.hasUsersTable == old(db.hasUsersTable) && db.hasTransactionsTable == old(db.hasTransactionsTable)
    ensures db.transactionCounter == if outcome.Predicted? && outcome.recorded then old(db.transactionCounter) + 1
                                     else old(db.transactionCounter)
    ensures !session.loggedIn ==> outcome == LoginRequired && db.transactions == old(db.transactions)
    ensures session.loggedIn ==>
              var prediction := FormPrediction(form, scale, classify, fraudProbability);
              if prediction.Err?
              then outcome == PredictionFailed(prediction.error) && db.transactions == old(db.transactions)
              else
                var recorded := MayRecord(session.loggedIn, session.userId);
                && outcome == Predicted(prediction.value.0, prediction.value.1, recorded)
                && db.transactions == old(db.transactions)
                     + if recorded
                       then [Transaction(old(db.transactionCounter) + 1, session.userId.value, now, RawInput(form),
                                         prediction.value.0, prediction.value.1)]
                       else []
  {
    if !session.loggedIn {
      return LoginRequired;
    }
    var rawInput := RawInput(form);
    var prediction := FormPrediction(form, scale, classify, fraudProbability);
    outcome := ShowPrediction(session, db, rawInput, prediction, now);
  }
}
