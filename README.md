# Fraud_Detection: the verified core

Fraud_Detection is a Streamlit application. A logged-in user enters a card
transaction, and a trained random-forest classifier says whether it is
fraudulent. The prediction is kept in a per-user history stored in SQLite.

This project models the deterministic core of that application in Dafny
and proves what it promises:

- **The feature pipeline** (`predict_transaction` in `app.py`).
  - The text date and time are parsed with `%m/%d/%Y %H:%M`, giving the hour, the weekday and the month.
  - The raw date and time columns are dropped.
  - `pd.get_dummies(..., drop_first=True)` encodes the six categorical fields.
  - The frame is reindexed to the 28 training features.
  - The five numeric columns are scaled.
  - The class is mapped to "Fraud"/"Legit".
  - The frame is modelled column by column (`Frames`). `get_dummies` is modelled over any number of rows (`Dummies`).
  - As the code is written, the frame has a single row, so drop-first removes every observed category. All 20 indicator features are therefore 0 for every transaction.
- **The store** (`utils.py`). The `users` and `transactions` tables are fields of a `Database` class, with:
  - UNIQUE usernames;
  - AUTOINCREMENT counters;
  - `create_user`, `authenticate_user` and `reset_user_password` as methods that update the tables in place.
- **The session** (`app.py`). The `logged_in`/`username`/`user_id` triple is a `Session` class, with login, register and logout handlers.
- **The prediction page** (`pages/2_Fraud_Prediction.py`):
  - the 15-entry `raw_input` record, with zero-padded `MM/DD/YYYY` and `HH:MM` texts;
  - the prediction on that record;
  - the guarded INSERT of one history row.
- **The history page** (`pages/3_User_History.py`):
  - the per-user SELECT ordered by timestamp, newest first;
  - the loop that flattens each row into a dictionary;
  - the pandas column union;
  - the column reordering that puts Timestamp, Prediction and Probability first.
- **The reset page** (`pages/4_Reset_Password.py`). Three checks run in order: empty fields, then a mismatch, then the call to `reset_user_password`.

The classifier and SHA-256 are uninterpreted parameters of the model. The scaler is a parameter too, assumed to work column by column (see FeaturePipeline.ScaleColumns under "## Left out"). Timestamps are parameters as well.

Modules, one per file:

| module | file | models |
|---|---|---|
| `Common` | common.dfy | Option/Result, distinctness, `IndexOf`, Python/SQLite string order, sorted distinct values |
| `Calendar` | calendar.dfy | proleptic Gregorian dates, `weekday()`, `strptime` for `%m/%d/%Y %H:%M`, `strftime` for `%m/%d/%Y` and `%H:%M`, pandas' timestamp bounds |
| `Frames` | frames.dfy | a column-major frame: lookup, set, drop, reindex with fill 0 |
| `Dummies` | dummies.dfy | `get_dummies(drop_first=True)` |
| `FeaturePipeline` | feature_pipeline.dfy | `predict_transaction` and its constant lists |
| `CredentialStore` | credential_store.dfy | `utils.py` as the `Database` class |
| `SessionState` | session.dfy | the session handlers of `app.py` |
| `FraudPredictionPage` | fraud_prediction_page.dfy | `pages/2_Fraud_Prediction.py` |
| `UserHistoryPage` | user_history_page.dfy | `pages/3_User_History.py` |
| `ResetPasswordPage` | reset_password_page.dfy | `pages/4_Reset_Password.py` |

## Model

| member | source | states |
|---|---|---|
| Calendar.DaysInMonth | app.py:59 | a month has 28 to 31 days, as `datetime` requires of a parsed date |
| Calendar.NextDay | app.py:61 | the day after a valid date is a valid date |
| Calendar.NextDayOrdinal | app.py:61 | the next day is one ordinal later and one weekday later modulo 7, so the Monday=0 weekday is well defined across month and year ends |
| Calendar.StampOf | app.py:59 | a matched date/time is a valid calendar date and clock time within pandas' timestamp range |
| Calendar.ParseStamp | app.py:59 | a parsed timestamp is a valid date and time within pandas' range; anything else is rejected |
| Calendar.SplitAtSpec | app.py:59 | splitting at a separator finds its first occurrence and splits nothing when it is absent |
| Calendar.FormatThenParse | pages/2_Fraud_Prediction.py:56-57 | parsing the zero-padded date and time texts the page renders gives back the same date and time, for every valid date in range |
| Calendar.ParseExample | app.py:59-62 | "01/15/2024 14:30" parses to hour 14, month 1 and weekday 0 (Monday) |
| Calendar.ExampleTexts | pages/2_Fraud_Prediction.py:56-57 | 15 January 2024 at 14:30 renders as "01/15/2024" and "14:30" |
| Calendar.RejectsMonth13 | app.py:59 | month 13 is rejected, whatever the other fields |
| Calendar.RejectsFebruary30 | app.py:59 | 30 February is rejected in every year |
| Calendar.RejectsHour24 | app.py:59 | hour 24 is rejected |
| Calendar.RejectsMinute60 | app.py:59 | minute 60 is rejected |
| Frames.Find | app.py:59 | a column lookup fails exactly when the name is absent and otherwise returns that column's values |
| Frames.FindSetColumn | app.py:60-62 | assigning a column replaces that name's values and leaves every other lookup unchanged |
| Frames.FindWithout | app.py:63 | after a drop, the dropped names are absent and every other lookup is unchanged |
| Frames.WithoutNames | app.py:63 | the columns left after a drop are exactly the old ones minus the dropped names |
| Frames.WithoutWellFormed | app.py:63 | dropping columns keeps names distinct and columns of equal height |
| Frames.Reindex | app.py:69 | the reindexed frame has exactly the requested names, in order, and the same height |
| Frames.ReindexColumn | app.py:69 | each requested column holds the old values when the name existed and zeros when it did not |
| Frames.ReindexIgnoresExtras | app.py:69 | columns outside the requested list have no influence on the result |
| Frames.ReindexIdempotent | app.py:69 | reindexing twice to the same list equals reindexing once |
| Dummies.Categories | app.py:66 | the categories of a column are its distinct text values, strictly sorted |
| Dummies.BlockSound | app.py:66 | every indicator column is named `field_value` for an observed value and marks that value's rows |
| Dummies.BlockComplete | app.py:66 | every observed value except the smallest gets its indicator column |
| Dummies.BlockOmitsSmallest | app.py:66 | the smallest observed value gets no indicator column (drop_first) |
| Dummies.OneHot | app.py:66 | in each row an indicator is 1 exactly when it names that row's value and 0 otherwise; the row is all zeros exactly when no observed value is smaller than its own |
| Dummies.LabelInjective | app.py:66 | two values of a field give the same indicator name only when they are equal |
| Dummies.SingleRowBlock | app.py:56-66 | on a one-row frame a field yields no indicator column |
| Dummies.GetDummiesSingleRow | app.py:56-66 | on a one-row frame the encoding only drops the categorical columns |
| Dummies.GetDummiesOk | app.py:66 | encoding succeeds exactly when every listed field is present and all text and the new labels do not clash; a missing-column error names exactly the absent fields; a result is well formed and keeps the height |
| FeaturePipeline.FeatureListShape | app.py:32-52 | there are 28 features: the five scaled numerics, then hour, weekday and month, then the 20 indicators |
| FeaturePipeline.FeaturesAreNotRawFields | app.py:23-52 | no feature is a categorical field or a dropped date/time column |
| FeaturePipeline.CategoriesSurviveDateStep | app.py:23-63 | the date step neither drops nor overwrites a categorical field |
| FeaturePipeline.Lookup | app.py:56 | a record lookup succeeds exactly for a key of the record and returns its value |
| FeaturePipeline.FromRecord | app.py:56 | the frame of one record has one row and the record's keys as columns |
| FeaturePipeline.FindRecord | app.py:56 | each column of that frame holds the record's value for that key |
| FeaturePipeline.ParseColumnRow | app.py:59 | the date column parses exactly when every row parses, row by row |
| FeaturePipeline.ParseColumnAllRows | app.py:59 | a column whose every row parses is parsed |
| FeaturePipeline.ParseColumnValid | app.py:59 | every parsed timestamp is a valid date and time |
| FeaturePipeline.Hours | app.py:60 | the hour column holds each timestamp's hour |
| FeaturePipeline.Weekdays | app.py:61 | the weekday column holds each timestamp's Monday=0 weekday |
| FeaturePipeline.Months | app.py:62 | the month column holds each timestamp's month |
| FeaturePipeline.AddDateFeatures | app.py:59-63 | the date step keeps the frame well formed and of the same height |
| FeaturePipeline.FindWithDateFeatures | app.py:59-63 | after the date step the three features hold hour, weekday and month, the date/time columns are gone, and every other column is unchanged |
| FeaturePipeline.DateColumnsDropped | app.py:63 | `Transaction_Date`, `Transaction_Time` and `Transaction_DateTime` never appear after the date step |
| FeaturePipeline.DateFeatureRanges | app.py:60-62 | hours lie in 0..23, weekdays in 0..6 and months in 1..12 |
| FeaturePipeline.Encode | app.py:55-69 | a successful encoding has one row and exactly the 28 features, in order |
| FeaturePipeline.EncodeOk | app.py:59-66 | encoding a record succeeds exactly when its date and time parse and its six categorical values are text |
| FeaturePipeline.EncodeColumn | app.py:56-69 | each encoded feature is the record's value for that name, the parsed date feature, or 0 when the record lacks it |
| FeaturePipeline.ScaleColumns | app.py:72 | scaling keeps the frame's names, height and shape |
| FeaturePipeline.ScaleOnlyTargets | app.py:72 | only the five numeric columns are rewritten, each cell by the scaler; the other 23 are unchanged |
| FeaturePipeline.Preprocess | app.py:55-72 | steps 1 to 4 succeed exactly when encoding does and give one row of the 28 features |
| FeaturePipeline.PreprocessFeatures | app.py:55-72 | each preprocessed feature is the scaled numeric, the date feature, or the record's (zero) indicator |
| FeaturePipeline.NumericFeature | app.py:72 | each numeric slot holds the scaler applied to the record's value under that name |
| FeaturePipeline.DateFeatures | app.py:60-69 | slots 5 to 7 hold the record's hour, weekday and month unchanged by scaling |
| FeaturePipeline.IndicatorZero | app.py:56-69 | an indicator slot is 0 for a record that has no key of that name |
| FeaturePipeline.IndicatorsAlwaysZero | app.py:56-69 | all 20 indicator slots are 0 for a record that has none of those keys |
| FeaturePipeline.LabelOf | app.py:78 | the label is "Fraud" exactly when the class is 1, and "Legit" otherwise |
| FeaturePipeline.PredictTransaction | app.py:55-78 | the prediction succeeds exactly when encoding does; the verdict is "Fraud" exactly when the classifier returns 1 on the preprocessed row, and the probability is the classifier's on that row |
| CredentialStore.UserNamed | utils.py:76 | the name lookup finds a row exactly when some row has that username, and returns such a row |
| CredentialStore.UserNamedAt | utils.py:76 | with unique usernames the lookup by a row's name returns that row |
| CredentialStore.AuthenticatedSpec | utils.py:62-69 | authentication succeeds exactly when a stored row has that username and the given hash, and returns that row |
| CredentialStore.ResetHash | utils.py:79 | the UPDATE replaces the hash of rows with that username and leaves every other row unchanged |
| CredentialStore.ResetKeepsRows | utils.py:79 | a reset keeps every id and username and changes only the named row |
| CredentialStore.ResetKeepsUnique | utils.py:79 | a reset keeps usernames unique |
| CredentialStore.ResetThenAuthenticate | utils.py:71-81 | after a reset the new password authenticates the user, and an old password with a different hash does not |
| CredentialStore.AppendKeepsUnique | utils.py:22 | inserting an unused username keeps usernames unique |
| CredentialStore.AppendKeepsIds | utils.py:21 | an AUTOINCREMENT id is larger than every earlier id |
| CredentialStore.Database.constructor | utils.py:8-11 | a new database file has no tables and no rows |
| CredentialStore.Database.InitializeDatabase | utils.py:13-46 | both tables exist afterwards and existing rows and counters are unchanged (CREATE TABLE IF NOT EXISTS) |
| CredentialStore.Database.CreateUser | utils.py:48-60 | an unused username gets one new row with a fresh id and its hash, and True is returned; a taken one gives False and no change |
| CredentialStore.Database.AuthenticateUser | utils.py:62-69 | returns the row with that username and that password's hash, if there is one, and changes nothing |
| CredentialStore.Database.ResetUserPassword | utils.py:71-89 | True exactly for a known username, whose hash alone is replaced; False, and no change, for an unknown user or a missing table |
| CredentialStore.Database.InsertTransaction | pages/2_Fraud_Prediction.py:87-94 | appends exactly one history row under the next id and changes nothing else |
| SessionState.RegisterAllowed | app.py:115 | registration proceeds exactly when both fields are non-empty |
| SessionState.Session.constructor | app.py:84-87 | the first visit is logged out with no name and no id |
| SessionState.Session.Login | app.py:96-105 | a matching row logs its user in with that row's name and id; otherwise the session is unchanged |
| SessionState.Session.Register | app.py:114-124 | empty fields change nothing; otherwise `create_user` adds the user under the next id exactly when the name is unused, and the user counter moves on exactly then; the transactions and their counter never change; only the store is modified, so the session stays as it was |
| SessionState.Session.Logout | app.py:127-130 | the session returns to logged out with no name and no id |
| SessionState.LoginOnlyWithMatchingRow | app.py:97-101 | a successful login is for a row stored in the table |
| FraudPredictionPage.RawInput | pages/2_Fraud_Prediction.py:54-70 | the record has exactly 15 keys, in the page's order |
| FraudPredictionPage.RawInputKeysDistinct | pages/2_Fraud_Prediction.py:54-70 | the 15 keys are distinct |
| FraudPredictionPage.RawInputHasNoIndicator | pages/2_Fraud_Prediction.py:54-70 | no key of the record is an indicator feature |
| FraudPredictionPage.NumericKeys | pages/2_Fraud_Prediction.py:55-66 | the five numeric fields sit in the record under the names the scaler uses |
| FraudPredictionPage.ScaledInputsAreNumbers | pages/2_Fraud_Prediction.py:55-66 | every value the page hands to the scaler is a number |
| FraudPredictionPage.RawInputStamp | pages/2_Fraud_Prediction.py:56-57 | the record's date and time texts parse back to the form's date and time whenever they lie in pandas' range |
| FraudPredictionPage.RawInputCategories | pages/2_Fraud_Prediction.py:58-67 | the six categorical fields are text |
| FraudPredictionPage.FormPredicts | pages/2_Fraud_Prediction.py:73 | preprocessing the form's record succeeds exactly when its timestamp is in pandas' range |
| FraudPredictionPage.FormNumericFeatures | pages/2_Fraud_Prediction.py:73 | the five numeric inputs reach the classifier through the scaler, in their slots |
| FraudPredictionPage.FormDateFeatures | pages/2_Fraud_Prediction.py:73 | slots 5 to 7 hold the form's hour, weekday and month |
| FraudPredictionPage.FormIndicatorFeatures | pages/2_Fraud_Prediction.py:73 | every indicator slot is 0 whatever was chosen in the form |
| FraudPredictionPage.FormClassifierRow | pages/2_Fraud_Prediction.py:73 | the classifier's row is the five scaled numerics, hour, weekday, month and twenty zeros |
| FraudPredictionPage.FormPredictionSpec | pages/2_Fraud_Prediction.py:73 | the prediction succeeds exactly when the timestamp is in range; the verdict is "Fraud" exactly when the classifier gives 1 on that row |
| FraudPredictionPage.ExampleForm | pages/2_Fraud_Prediction.py:56-73 | a form dated 01/15/2024 at 14:30 reaches the classifier with hour 14, weekday 0 (Monday) and month 1 |
| FraudPredictionPage.ShowPrediction | pages/2_Fraud_Prediction.py:73-102 | an error stores nothing; a verdict is shown, and exactly one row is appended, under the next id, when the session is logged in with a non-zero id; the transaction counter moves on exactly then; users, the user counter and the tables' existence are unchanged |
| FraudPredictionPage.Submit | pages/2_Fraud_Prediction.py:18-102 | without a login nothing is predicted or stored; otherwise as above, for the form's record, with the same counter and table equations |
| UserHistoryPage.OwnRowsMembers | pages/3_User_History.py:30-33 | the selected rows are exactly the stored rows of that user |
| UserHistoryPage.OwnRowsCount | pages/3_User_History.py:30-34 | as many rows are selected as the user has stored |
| UserHistoryPage.InsertByTime | pages/3_User_History.py:31 | inserting a row keeps the multiset of rows |
| UserHistoryPage.InsertKeepsOrder | pages/3_User_History.py:31 | inserting into a newest-first list keeps it newest first |
| UserHistoryPage.SortNewestFirst | pages/3_User_History.py:31 | the sort is a permutation and orders timestamps non-increasingly |
| UserHistoryPage.OwnRowsMultiplicity | pages/3_User_History.py:30-34 | each fetched row occurs exactly as often as the table stores it under that user id |
| UserHistoryPage.SelectHistorySpec | pages/3_User_History.py:30-34 | the listing is a permutation of that user's rows, duplicates included (each row occurs as often as the table stores it under the user id), newest first, with the user's row count |
| UserHistoryPage.OthersMembers | pages/3_User_History.py:54 | the remaining columns are exactly those not among the three first ones |
| UserHistoryPage.OthersDistinct | pages/3_User_History.py:54 | filtering distinct columns keeps them distinct |
| UserHistoryPage.OthersKeepOrder | pages/3_User_History.py:54 | the remaining columns keep their relative order |
| UserHistoryPage.Put | pages/3_User_History.py:43-47 | a dict assignment keeps the key order and appends a new key at the end |
| UserHistoryPage.PutLookup | pages/3_User_History.py:43-47 | after an assignment the key reads the new value and other keys are unchanged |
| UserHistoryPage.MergeLookup | pages/3_User_History.py:47 | after `{**d, **e}` a key of `e` reads `e`'s value and any other key reads `d`'s |
| UserHistoryPage.MergeKeys | pages/3_User_History.py:43-47 | the merged keys are `d`'s keys followed by `e`'s new keys in their order |
| UserHistoryPage.MergeKeepsKeys | pages/3_User_History.py:43-47 | the merge keeps `d`'s keys as its prefix |
| UserHistoryPage.FlatRowLookup | pages/3_User_History.py:43-48 | a flattened row reads the raw input's value for its keys and the stored value for the three fixed columns otherwise |
| UserHistoryPage.FixedLookup | pages/3_User_History.py:44-46 | the three fixed columns read the stored timestamp, prediction and probability |
| UserHistoryPage.FlatRowStartsFixed | pages/3_User_History.py:43-48 | a flattened row begins with Timestamp, Prediction, Probability |
| UserHistoryPage.FlatRowKeys | pages/3_User_History.py:43-48 | a flattened row's keys are the three fixed ones, then the raw input's other keys, all distinct |
| UserHistoryPage.ColumnsOfMembers | pages/3_User_History.py:50 | the frame's columns are exactly the keys that occur in some row |
| UserHistoryPage.ColumnsOfDistinct | pages/3_User_History.py:50 | the frame's columns are distinct |
| UserHistoryPage.ReorderPermutes | pages/3_User_History.py:53-55 | the reordered columns are a permutation of the frame's columns and begin with Timestamp, Prediction, Probability |
| UserHistoryPage.ReorderKeepsOrder | pages/3_User_History.py:53-54 | after the first three, columns keep their original relative order |
| UserHistoryPage.ReorderFlatRows | pages/3_User_History.py:53-55 | the selection `df[cols]` succeeds on the flattened rows |
| UserHistoryPage.FlattenRows | pages/3_User_History.py:38-48 | the loop yields one flattened row per record, in order |
| UserHistoryPage.ShowHistory | pages/3_User_History.py:19-79 | logged out shows a warning; a missing table shows an error; no rows shows "no history"; otherwise the user's rows newest first, flattened, with the reordered columns |
| ResetPasswordPage.CheckResetForm | pages/4_Reset_Password.py:20-24 | the reset proceeds exactly when all fields are non-empty and the passwords match; a mismatch is reported only when all fields are non-empty |
| ResetPasswordPage.EmptyFieldFirst | pages/4_Reset_Password.py:20-22 | an empty field is reported before any mismatch |
| ResetPasswordPage.EmptyBeatsMismatch | pages/4_Reset_Password.py:20-22 | an empty username with different passwords reports the empty field |
| ResetPasswordPage.SubmitReset | pages/4_Reset_Password.py:19-26 | a rejected form leaves the users alone; an accepted one resets exactly a known user, and after a success the new password authenticates; transactions, both counters and the tables' existence never change |

## Left out

- The Streamlit interface: widgets, layout, messages, `st.rerun` and page links. Messages are outcome values.
- pages/1_Dataset_Information_and_EDA.py: CSV loading and plotting. It has no logic of its own.
- Loading the model and scaler with `joblib` and `@st.cache_resource`. The scaler, `model.predict` and `model.predict_proba` are parameters of the model.
- FeaturePipeline.ScaleColumns: the scaler is ASSUMED to work column by column, each cell a function of its column's name and its own value. scikit-learn's StandardScaler, MinMaxScaler, RobustScaler and MaxAbsScaler work this way, but app.py:17 and app.py:72 load and apply a fitted scaler without saying which kind it is. A scaler that mixes the five columns would falsify FeaturePipeline.NumericFeature, FeaturePipeline.PreprocessFeatures, FraudPredictionPage.FormNumericFeatures and FraudPredictionPage.FormClassifierRow. The scaler's floating-point arithmetic is not modelled.
- FeaturePipeline.PredictTransaction: `round(prob, 4)` is not modelled. The probability is the classifier's value unrounded, because floating-point rounding is outside the model.
- FeaturePipeline.PredictTransaction: the classifier is a total function. `model.predict` raising on a malformed row is not modelled, because the scaler and the classifier are outside the model.
- FeaturePipeline.Preprocess: the scaler is a total function, so the step succeeds exactly when encoding does. `scaler.transform` raises on a text value in a scaled column, but the page only supplies numbers there (`FraudPredictionPage.ScaledInputsAreNumbers`). Another caller passing text would get an error the model does not show.
- Frames.Without: dropping a label that is absent is ignored, where pandas `drop` raises a `KeyError`. The drop at app.py:63 removes the date and time columns the parse has just read and the timestamp column it has just set, and `Dummies.GetDummies` drops the categorical columns only after checking that they are present.
- CredentialStore.Database.CreateUser and CredentialStore.Database.AuthenticateUser: they require the users table to exist. Without it SQLite raises an error these functions do not catch, and app.py:9-11 always creates the tables first.
- The widget bounds of the prediction form are not modelled: the number-input minimum, the slider ranges and the option lists. Every property above holds for any field values, a valid date and a valid time.
- SHA-256 is an uninterpreted function, and it is not assumed to be injective.
- SQLite mechanics: connections, commits, cursors and `sqlite3.Error`.
  - The only error modelled is a missing table.
  - The foreign key on `user_id` is not enforced, because SQLite does not enforce it unless asked to.
- CredentialStore.Database.InsertTransaction: a failed INSERT on the prediction page (an `sqlite3.Error` it catches) is not modelled. The method requires the transactions table to exist, and so do FraudPredictionPage.ShowPrediction and FraudPredictionPage.Submit when the user is logged in; app.py:9-11 always creates the tables first.
- The history row's JSON. `json.dumps`/`json.loads` are not modelled, and the record is stored as is. The distinction between Python `int` and `float` is lost, because the model has one number type.
- `datetime.now().isoformat()` is a timestamp parameter. The Excel export (`xlsxwriter`) is left out.
- UserHistoryPage.SortNewestFirst: SQL leaves the order of equal timestamps unspecified. The model uses one stable order and states only that the rows are a permutation in non-increasing order.
- Calendar.ParseStamp: only ASCII digits are accepted. Python's `\d` also matches other Unicode digits.
- Calendar.ParseStamp: pandas' nanosecond bounds (1677-09-21 to 2262-04-11) are kept at minute resolution.
- Calendar.ParseStamp: the range of dates the date widget offers is not modelled. Any valid date is an input.
- Dummies.GetDummies: a non-text value in an encoded column is an error (`NotText`). pandas would encode it, but the page always supplies text.
- Dummies.GetDummies: two categories that produce the same column name are an error (`DuplicateLabels`). pandas would create both columns, and the following reindex raises.
- Indicator columns hold the numbers 1 and 0, where pandas holds booleans.
- FeaturePipeline.FeatureListShape: the 28 feature names are stated in order, but their pairwise distinctness is not proved. Nothing in the pipeline relies on it.
- `st.session_state` is a plain object. A missing `logged_in` key is the first-visit state that `Session.constructor` builds.
