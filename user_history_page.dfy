/** The history page (`pages/3_User_History.py`): the logged-in user's rows
    of `transactions`, newest first, each flattened into one dict of the
    three stored fields and the decoded `raw_input`, shown as a table whose
    first columns are Timestamp, Prediction and Probability. */
module UserHistoryPage {
  import opened Common
  import opened Frames
  import opened FeaturePipeline
  import opened CredentialStore
  import opened SessionState

  // ---------------------------------------------------------------------
  // `SELECT timestamp, raw_input, prediction, probability FROM transactions
  //  WHERE user_id = ? ORDER BY timestamp DESC`

  /** One fetched row. */
  datatype HistoryRow = HistoryRow(timestamp: string, rawInput: Record, prediction: string, probability: real)

  function Selected(t: Transaction): HistoryRow {
    HistoryRow(t.timestamp, t.rawInput, t.prediction, t.probability)
  }

  /** The `user_id` column, read with `Ids`. */
  const OwnerId: Transaction -> int := (t: Transaction) => t.userId

  /** `WHERE user_id = ?`, in table order. */
  function OwnRows(rows: seq<Transaction>, userId: int): (r: seq<HistoryRow>)
    ensures |r| <= |rows|
  {
    if |rows| == 0 then []
    else (if rows[0].userId == userId then [Selected(rows[0])] else []) + OwnRows(rows[1..], userId)
  }

  /** Exactly the rows stored under that user id are fetched. */
  lemma {:induction false} OwnRowsMembers(rows: seq<Transaction>, userId: int, h: HistoryRow)
    ensures h in OwnRows(rows, userId) <==> exists i | 0 <= i < |rows| :: rows[i].userId == userId && Selected(rows[i]) == h
  {
    if |rows| > 0 {
      OwnRowsMembers(rows[1..], userId, h);
      assert forall i | 1 <= i < |rows| :: rows[i] == rows[1..][i - 1];
      if exists i | 0 <= i < |rows| :: rows[i].userId == userId && Selected(rows[i]) == h {
        var i :| 0 <= i < |rows| && rows[i].userId == userId && Selected(rows[i]) == h;
        if i > 0 {
          assert rows[1..][i - 1] == rows[i];
        }
      }
    }
  }

  /** As many rows are fetched as the table holds for that user id. */
  lemma {:induction false} OwnRowsCount(rows: seq<Transaction>, userId: int)
    ensures |OwnRows(rows, userId)| == multiset(Ids(rows, OwnerId))[userId]
  {
    if |rows| > 0 {
      OwnRowsCount(rows[1..], userId);
      assert Ids(rows, OwnerId) == [rows[0].userId] + Ids(rows[1..], OwnerId);
    }
  }

  /** Each stored row as its owner's id and the fields the SELECT reads. */
  function Tagged(rows: seq<Transaction>): (r: seq<(int, HistoryRow)>)
    ensures |r| == |rows| && forall i | 0 <= i < |rows| :: r[i] == (rows[i].userId, Selected(rows[i]))
  {
    seq(|rows|, i requires 0 <= i < |rows| => (rows[i].userId, Selected(rows[i])))
  }

  /** Each fetched row occurs as often as the table stores it under that
      user id: the fetch is that user's rows, duplicates included. */
  lemma {:induction false} OwnRowsMultiplicity(rows: seq<Transaction>, userId: int, h: HistoryRow)
    ensures multiset(OwnRows(rows, userId))[h] == multiset(Tagged(rows))[(userId, h)]
  {
    if |rows| > 0 {
      OwnRowsMultiplicity(rows[1..], userId, h);
      var head := if rows[0].userId == userId then [Selected(rows[0])] else [];
      assert OwnRows(rows, userId) == head + OwnRows(rows[1..], userId);
      assert Tagged(rows) == [(rows[0].userId, Selected(rows[0]))] + Tagged(rows[1..]);
    }
  }

  /** `ORDER BY timestamp DESC`: no row is older than one after it. SQLite
      compares TEXT byte by byte, which for UTF-8 is code-point order. */
  predicate NewestFirst(rows: seq<HistoryRow>) {
    forall i, j | 0 <= i < j < |rows| :: !StrLt(rows[i].timestamp, rows[j].timestamp)
  }

  /** Places `h` after every row at least as new as it. */
  function InsertByTime(h: HistoryRow, rows: seq<HistoryRow>): (r: seq<HistoryRow>)
    ensures multiset(r) == multiset(rows) + multiset{h}
  {
    if |rows| == 0 then [h]
    else if StrLt(rows[0].timestamp, h.timestamp) then [h] + rows
    else
      assert rows == [rows[0]] + rows[1..];
      [rows[0]] + InsertByTime(h, rows[1..])
  }

  /** A time no later than `b`, which is earlier than `c`, is earlier than `c`. */
  lemma NotAboveBelow(a: string, b: string, c: string)
    requires !StrLt(b, a) && StrLt(b, c)
    ensures !StrLt(c, a)
  {
    if a != b {
      StrLtTotal(a, b);
      StrLtTransitive(a, b, c);
      StrLtAsymmetric(a, c);
    } else {
      StrLtAsymmetric(b, c);
    }
  }

  /** Dropping the newest row keeps the rest newest first. */
  lemma NewestFirstTail(rows: seq<HistoryRow>)
    requires NewestFirst(rows) && |rows| > 0
    ensures NewestFirst(rows[1..])
  {
    forall i, j | 0 <= i < j < |rows| - 1 ensures !StrLt(rows[1..][i].timestamp, rows[1..][j].timestamp) {
      assert rows[1..][i] == rows[i + 1] && rows[1..][j] == rows[j + 1];
    }
  }

  /** A row no older than every row of a newest-first list can go in front. */
  lemma ConsKeepsOrder(a: HistoryRow, rest: seq<HistoryRow>)
    requires NewestFirst(rest)
    requires forall j | 0 <= j < |rest| :: !StrLt(a.timestamp, rest[j].timestamp)
    ensures NewestFirst([a] + rest)
  {
    var r := [a] + rest;
    forall i, j | 0 <= i < j < |r| ensures !StrLt(r[i].timestamp, r[j].timestamp) {
      assert r[j] == rest[j - 1];
      if i > 0 {
        assert r[i] == rest[i - 1];
      }
    }
  }

  /** The head of a newest-first list is no older than anything inserted
      after it, nor than the rows behind it. */
  lemma HeadBoundsInsert(h: HistoryRow, rows: seq<HistoryRow>)
    requires NewestFirst(rows) && |rows| > 0 && !StrLt(rows[0].timestamp, h.timestamp)
    ensures forall j | 0 <= j < |InsertByTime(h, rows[1..])| ::
              !StrLt(rows[0].timestamp, InsertByTime(h, rows[1..])[j].timestamp)
  {
    var rest := InsertByTime(h, rows[1..]);
    forall j | 0 <= j < |rest| ensures !StrLt(rows[0].timestamp, rest[j].timestamp) {
      var x := rest[j];
      assert x in multiset(rest);
      if x != h {
        assert x in multiset(rows[1..]);
        var k :| 0 <= k < |rows| - 1 && rows[1..][k] == x;
        assert rows[k + 1] == x;
      }
    }
  }

  lemma {:induction false} InsertKeepsOrder(h: HistoryRow, rows: seq<HistoryRow>)
    requires NewestFirst(rows)
    ensures NewestFirst(InsertByTime(h, rows))
  {
    if |rows| > 0 {
      if StrLt(rows[0].timestamp, h.timestamp) {
        forall j | 0 <= j < |rows| ensures !StrLt(h.timestamp, rows[j].timestamp) {
          if j > 0 {
            NotAboveBelow(rows[j].timestamp, rows[0].timestamp, h.timestamp);
          } else {
            StrLtAsymmetric(rows[0].timestamp, h.timestamp);
          }
        }
        ConsKeepsOrder(h, rows);
      } else {
        NewestFirstTail(rows);
        InsertKeepsOrder(h, rows[1..]);
        HeadBoundsInsert(h, rows);
        ConsKeepsOrder(rows[0], InsertByTime(h, rows[1..]));
      }
    }
  }

  /** A stable insertion sort, newest first; SQL leaves the order of equal
      timestamps open, and no property below depends on it. */
  function SortNewestFirst(rows: seq<HistoryRow>): (r: seq<HistoryRow>)
    ensures multiset(r) == multiset(rows)
    ensures NewestFirst(r)
  {
    if |rows| == 0 then []
    else
      var n := |rows| - 1;
      assert rows == rows[..n] + [rows[n]];
      var sorted := SortNewestFirst(rows[..n]);
      InsertKeepsOrder(rows[n], sorted);
      InsertByTime(rows[n], sorted)
  }

  function SelectHistory(rows: seq<Transaction>, userId: int): seq<HistoryRow> {
    SortNewestFirst(OwnRows(rows, userId))
  }

  /** The fetched rows: exactly that user's rows, as many as the table holds
      for the user, newest first. */
  lemma SelectHistorySpec(rows: seq<Transaction>, userId: int)
    ensures NewestFirst(SelectHistory(rows, userId))
    ensures |SelectHistory(rows, userId)| == multiset(Ids(rows, OwnerId))[userId]
    ensures forall h :: h in SelectHistory(rows, userId)
                        <==> exists i | 0 <= i < |rows| :: rows[i].userId == userId && Selected(rows[i]) == h
    ensures forall h :: multiset(SelectHistory(rows, userId))[h] == multiset(Tagged(rows))[(userId, h)]
  {
    var own := OwnRows(rows, userId);
    var r := SelectHistory(rows, userId);
    OwnRowsCount(rows, userId);
    forall h ensures multiset(r)[h] == multiset(Tagged(rows))[(userId, h)] {
      OwnRowsMultiplicity(rows, userId, h);
    }
    assert |r| == |multiset(r)| == |multiset(own)| == |own|;
    forall h ensures h in r <==> exists i | 0 <= i < |rows| :: rows[i].userId == userId && Selected(rows[i]) == h {
      OwnRowsMembers(rows, userId, h);
      assert h in r <==> h in multiset(r);
      assert h in own <==> h in multiset(own);
    }
  }

  // ---------------------------------------------------------------------
  // `{'Timestamp': ..., 'Prediction': ..., 'Probability': ..., **raw_input_dict}`

  /** `[x for x in xs if x not in excluded]`. */
  function Others(xs: seq<string>, excluded: seq<string>): (r: seq<string>)
    ensures |r| <= |xs|
  {
    if |xs| == 0 then []
    else (if xs[0] in excluded then [] else [xs[0]]) + Others(xs[1..], excluded)
  }

  lemma {:induction false} OthersMembers(xs: seq<string>, excluded: seq<string>, x: string)
    ensures x in Others(xs, excluded) <==> x in xs && x !in excluded
  {
    if |xs| > 0 {
      OthersMembers(xs[1..], excluded, x);
      assert xs == [xs[0]] + xs[1..];
    }
  }

  lemma {:induction false} OthersDistinct(xs: seq<string>, excluded: seq<string>)
    requires Distinct(xs)
    ensures Distinct(Others(xs, excluded))
  {
    if |xs| > 0 {
      DistinctTail(xs);
      OthersDistinct(xs[1..], excluded);
      if xs[0] !in excluded {
        OthersMembers(xs[1..], excluded, xs[0]);
        DistinctConcat([xs[0]], Others(xs[1..], excluded));
      }
    }
  }

  /** Excluding a value the list does not hold changes nothing. */
  lemma {:induction false} OthersIgnoresAbsent(xs: seq<string>, excluded: seq<string>, x: string)
    requires x !in xs
    ensures Others(xs, excluded + [x]) == Others(xs, excluded)
  {
    if |xs| > 0 {
      OthersIgnoresAbsent(xs[1..], excluded, x);
    }
  }

  /** Excluding values the list does not hold keeps the whole list. */
  lemma {:induction false} OthersDisjoint(xs: seq<string>, excluded: seq<string>)
    requires forall x | x in xs :: x !in excluded
    ensures Others(xs, excluded) == xs
  {
    if |xs| > 0 {
      OthersDisjoint(xs[1..], excluded);
      assert xs == [xs[0]] + xs[1..];
    }
  }

  /** The comprehension keeps the order of the list: of two kept values, the
      earlier one comes earlier in the list. */
  lemma {:induction false} OthersKeepOrder(xs: seq<string>, excluded: seq<string>, i: nat, j: nat)
    requires Distinct(xs) && i < j < |Others(xs, excluded)|
    ensures IndexOf(xs, Others(xs, excluded)[i]) < IndexOf(xs, Others(xs, excluded)[j])
  {
    var r := Others(xs, excluded);
    var rest := Others(xs[1..], excluded);
    DistinctTail(xs);
    if xs[0] in excluded {
      assert r == rest;
      OthersMembers(xs[1..], excluded, r[i]);
      OthersMembers(xs[1..], excluded, r[j]);
      OthersKeepOrder(xs[1..], excluded, i, j);
      IndexOfTail(xs, r[i]);
      IndexOfTail(xs, r[j]);
    } else {
      assert r == [xs[0]] + rest;
      assert r[j] == rest[j - 1];
      OthersMembers(xs[1..], excluded, r[j]);
      IndexOfTail(xs, r[j]);
      if i == 0 {
        assert r[i] == xs[0];
      } else {
        assert r[i] == rest[i - 1];
        OthersMembers(xs[1..], excluded, r[i]);
        OthersKeepOrder(xs[1..], excluded, i - 1, j - 1);
        IndexOfTail(xs, r[i]);
      }
    }
  }

  /** In a list without duplicates, a value of the tail sits one further on. */
  lemma IndexOfTail(xs: seq<string>, x: string)
    requires Distinct(xs) && |xs| > 0 && x in xs[1..]
    ensures IndexOf(xs, x) == IndexOf(xs[1..], x) + 1 && IndexOf(xs, x) > 0
  {
    var k :| 0 <= k < |xs| - 1 && xs[1..][k] == x;
    assert xs[k + 1] == x;
    assert xs[0] != x;
    IndexOfSpec(xs[1..], x);
  }

  /** `d[k] = v`: a new key goes last, an existing key keeps its place. */
  function Put(d: Record, k: string, v: Value): (r: Record)
    ensures Keys(r) == if k in Keys(d) then Keys(d) else Keys(d) + [k]
  {
    if |d| == 0 then [(k, v)]
    else
      KeysCons(d);
      if d[0].0 == k then
        var r := [(k, v)] + d[1..];
        KeysCons(r);
        assert r[1..] == d[1..];
        r
      else
        var rest := Put(d[1..], k, v);
        var r := [d[0]] + rest;
        KeysCons(r);
        assert r[1..] == rest;
        r
  }

  lemma {:induction false} PutLookup(d: Record, k: string, v: Value, key: string)
    ensures Lookup(Put(d, k, v), key) == if key == k then Some(v) else Lookup(d, key)
  {
    if |d| > 0 {
      var r := Put(d, k, v);
      if d[0].0 == k {
        assert r[0] == (k, v) && r[1..] == d[1..];
      } else {
        PutLookup(d[1..], k, v, key);
        assert r[0] == d[0] && r[1..] == Put(d[1..], k, v);
      }
    }
  }

  /** `{**d, **e}`: the entries of `e` written into `d` one by one. */
  function Merge(d: Record, e: Record): Record
    decreases |e|
  {
    if |e| == 0 then d else Merge(Put(d, e[0].0, e[0].1), e[1..])
  }

  lemma DistinctKeysTail(e: Record)
    requires Distinct(Keys(e)) && |e| > 0
    ensures Distinct(Keys(e[1..])) && e[0].0 !in Keys(e[1..])
  {
    KeysCons(e);
    assert Keys(e[1..]) == Keys(e)[1..];
    DistinctTail(Keys(e));
  }

  /** A key of `e` reads `e`'s value; any other key reads `d`'s. */
  lemma {:induction false} MergeLookup(d: Record, e: Record, key: string)
    requires Distinct(Keys(e))
    ensures Lookup(Merge(d, e), key) == if key in Keys(e) then Lookup(e, key) else Lookup(d, key)
    decreases |e|
  {
    if |e| > 0 {
      DistinctKeysTail(e);
      KeysCons(e);
      MergeLookup(Put(d, e[0].0, e[0].1), e[1..], key);
      PutLookup(d, e[0].0, e[0].1, key);
    }
  }

  /** The keys of `d` keep their places and the new keys of `e` follow in
      `e`'s order. */
  lemma {:induction false} MergeKeys(d: Record, e: Record)
    requires Distinct(Keys(e))
    ensures Keys(Merge(d, e)) == Keys(d) + Others(Keys(e), Keys(d))
    decreases |e|
  {
    if |e| > 0 {
      DistinctKeysTail(e);
      KeysCons(e);
      var x := e[0].0;
      var ks := Keys(e[1..]);
      var p := Put(d, x, e[0].1);
      MergeKeys(p, e[1..]);
      if x in Keys(d) {
        OthersStep(Keys(e), Keys(d), x, ks);
      } else {
        FreshKeyJoins(Keys(d), x, ks);
      }
    }
  }

  /** Appending a key `x` that is new to `kd` and not repeated in `ks`, then
      the keys of `ks` new to the result, lists the same keys as `kd`
      followed by the keys of `[x] + ks` new to `kd`. */
  lemma FreshKeyJoins(kd: seq<string>, x: string, ks: seq<string>)
    requires x !in kd && x !in ks
    ensures (kd + [x]) + Others(ks, kd + [x]) == kd + Others([x] + ks, kd)
  {
    OthersIgnoresAbsent(ks, kd, x);
    OthersStep([x] + ks, kd, x, ks);
  }

  /** One step of the comprehension over a list `[x] + ks`. */
  lemma OthersStep(xs: seq<string>, excluded: seq<string>, x: string, ks: seq<string>)
    requires xs == [x] + ks
    ensures Others(xs, excluded) == if x in excluded then Others(ks, excluded) else [x] + Others(ks, excluded)
  {
    assert xs[0] == x && xs[1..] == ks;
  }

  /** The keys of `d` stay first, in place, whatever `e` holds. */
  lemma {:induction false} MergeKeepsKeys(d: Record, e: Record)
    ensures |Merge(d, e)| >= |d| && Keys(Merge(d, e))[..|d|] == Keys(d)
    decreases |e|
  {
    if |e| > 0 {
      var p := Put(d, e[0].0, e[0].1);
      MergeKeepsKeys(p, e[1..]);
      assert Keys(p)[..|d|] == Keys(d);
      assert Keys(Merge(d, e))[..|d|] == Keys(Merge(p, e[1..]))[..|p|][..|d|];
    }
  }

  const TimestampColumn := "Timestamp"
  const PredictionColumn := "Prediction"
  const ProbabilityColumn := "Probability"
  const FixedColumns := [TimestampColumn, PredictionColumn, ProbabilityColumn]

  function FixedFields(h: HistoryRow): Record {
    [(TimestampColumn, Str(h.timestamp)), (PredictionColumn, Str(h.prediction)), (ProbabilityColumn, Num(h.probability))]
  }

  /** One entry of `transaction_data`. */
  function FlatRow(h: HistoryRow): Record {
    Merge(FixedFields(h), h.rawInput)
  }

  /** Each flattened row holds every key of the decoded `raw_input` with
      its value, and the three stored fields under their own names unless
      `raw_input` has a key of that name, which then wins. */
  lemma FlatRowLookup(h: HistoryRow, key: string)
    requires Distinct(Keys(h.rawInput))
    ensures Lookup(FlatRow(h), key)
         == if key in Keys(h.rawInput) then Lookup(h.rawInput, key)
            else if key == TimestampColumn then Some(Str(h.timestamp))
            else if key == PredictionColumn then Some(Str(h.prediction))
            else if key == ProbabilityColumn then Some(Num(h.probability))
            else None
  {
    MergeLookup(FixedFields(h), h.rawInput, key);
    FixedLookup(h, key);
  }

  lemma FixedLookup(h: HistoryRow, key: string)
    ensures Lookup(FixedFields(h), key)
         == if key == TimestampColumn then Some(Str(h.timestamp))
            else if key == PredictionColumn then Some(Str(h.prediction))
            else if key == ProbabilityColumn then Some(Num(h.probability))
            else None
  {
    var f := FixedFields(h);
    var f1 := [(PredictionColumn, Str(h.prediction)), (ProbabilityColumn, Num(h.probability))];
    var f2 := [(ProbabilityColumn, Num(h.probability))];
    assert f[1..] == f1 && f1[1..] == f2 && f2[1..] == [];
    assert Lookup(f2, key) == if key == ProbabilityColumn then Some(Num(h.probability)) else None;
    assert Lookup(f1, key) == if key == PredictionColumn then Some(Str(h.prediction)) else Lookup(f2, key);
    assert Lookup(f, key) == if key == TimestampColumn then Some(Str(h.timestamp)) else Lookup(f1, key);
  }

  /** The three stored fields open every flattened row, whatever `raw_input` holds. */
  lemma FlatRowStartsFixed(h: HistoryRow)
    ensures |FlatRow(h)| >= 3 && Keys(FlatRow(h))[..3] == FixedColumns
  {
    MergeKeepsKeys(FixedFields(h), h.rawInput);
    assert Keys(FixedFields(h)) == FixedColumns;
  }

  /** Its keys: the three stored fields first, then the other keys of
      `raw_input` in their order, each once. */
  lemma FlatRowKeys(h: HistoryRow)
    requires Distinct(Keys(h.rawInput))
    ensures Keys(FlatRow(h)) == FixedColumns + Others(Keys(h.rawInput), FixedColumns)
    ensures Distinct(Keys(FlatRow(h)))
  {
    MergeKeys(FixedFields(h), h.rawInput);
    assert Keys(FixedFields(h)) == FixedColumns;
    OthersDistinct(Keys(h.rawInput), FixedColumns);
    forall x | x in FixedColumns ensures x !in Others(Keys(h.rawInput), FixedColumns) {
      OthersMembers(Keys(h.rawInput), FixedColumns, x);
    }
    DistinctConcat(FixedColumns, Others(Keys(h.rawInput), FixedColumns));
  }

  // ---------------------------------------------------------------------
  // `pd.DataFrame(transaction_data)` and the reordering of its columns

  /** The columns of a frame built from a list of dicts: every key, in the
      order keys first appear, row by row. */
  function ColumnsOf(rows: seq<Record>): seq<string> {
    if |rows| == 0 then []
    else
      var prev := ColumnsOf(rows[..|rows| - 1]);
      prev + Others(Keys(rows[|rows| - 1]), prev)
  }

  lemma {:induction false} ColumnsOfMembers(rows: seq<Record>, key: string)
    ensures key in ColumnsOf(rows) <==> exists i | 0 <= i < |rows| :: key in Keys(rows[i])
  {
    if |rows| > 0 {
      var n := |rows| - 1;
      ColumnsOfMembers(rows[..n], key);
      OthersMembers(Keys(rows[n]), ColumnsOf(rows[..n]), key);
      assert forall i | 0 <= i < n :: rows[..n][i] == rows[i];
    }
  }

  lemma {:induction false} ColumnsOfDistinct(rows: seq<Record>)
    requires forall i | 0 <= i < |rows| :: Distinct(Keys(rows[i]))
    ensures Distinct(ColumnsOf(rows))
  {
    if |rows| > 0 {
      var n := |rows| - 1;
      assert forall i | 0 <= i < n :: rows[..n][i] == rows[i];
      ColumnsOfDistinct(rows[..n]);
      var prev := ColumnsOf(rows[..n]);
      OthersDistinct(Keys(rows[n]), prev);
      forall x | x in prev ensures x !in Others(Keys(rows[n]), prev) {
        OthersMembers(Keys(rows[n]), prev, x);
      }
      DistinctConcat(prev, Others(Keys(rows[n]), prev));
    }
  }

  /** `df_history[['Timestamp', 'Prediction', 'Probability'] + [the others]]`;
      None where pandas raises KeyError for a fixed column the frame lacks. */
  function ReorderColumns(columns: seq<string>): Option<seq<string>> {
    if TimestampColumn in columns && PredictionColumn in columns && ProbabilityColumn in columns
    then Some(FixedColumns + Others(columns, FixedColumns))
    else None
  }

  lemma {:induction false} DistinctMultiset(s: seq<string>, x: string)
    requires Distinct(s)
    ensures multiset(s)[x] == if x in s then 1 else 0
  {
    if |s| > 0 {
      assert s == [s[0]] + s[1..];
      DistinctTail(s);
      DistinctMultiset(s[1..], x);
    }
  }

  /** The reordered columns are the frame's columns rearranged, with the
      three stored fields first. */
  lemma ReorderPermutes(columns: seq<string>)
    requires Distinct(columns) && ReorderColumns(columns).Some?
    ensures var r := ReorderColumns(columns).value;
            multiset(r) == multiset(columns) && r[..3] == FixedColumns
  {
    var others := Others(columns, FixedColumns);
    var r := FixedColumns + others;
    OthersDistinct(columns, FixedColumns);
    forall x | x in FixedColumns ensures x !in others {
      OthersMembers(columns, FixedColumns, x);
    }
    DistinctConcat(FixedColumns, others);
    forall x ensures multiset(r)[x] == multiset(columns)[x] {
      OthersMembers(columns, FixedColumns, x);
      DistinctMultiset(r, x);
      DistinctMultiset(columns, x);
    }
    assert multiset(r) == multiset(columns);
  }

  /** After the three stored fields the columns keep their previous order. */
  lemma ReorderKeepsOrder(columns: seq<string>, i: nat, j: nat)
    requires Distinct(columns) && ReorderColumns(columns).Some?
    requires 3 <= i < j < |ReorderColumns(columns).value|
    ensures var r := ReorderColumns(columns).value;
            IndexOf(columns, r[i]) < IndexOf(columns, r[j])
  {
    var others := Others(columns, FixedColumns);
    assert ReorderColumns(columns).value == FixedColumns + others;
    assert (FixedColumns + others)[i] == others[i - 3] && (FixedColumns + others)[j] == others[j - 3];
    OthersKeepOrder(columns, FixedColumns, i - 3, j - 3);
  }

  /** Rows that each hold the three stored fields always reorder. */
  lemma ReorderFlatRows(rows: seq<Record>)
    requires |rows| > 0 && |rows[0]| >= 3 && Keys(rows[0])[..3] == FixedColumns
    ensures ReorderColumns(ColumnsOf(rows)).Some?
  {
    var ks := Keys(rows[0]);
    assert ks[0] == ks[..3][0] && ks[1] == ks[..3][1] && ks[2] == ks[..3][2];
    assert TimestampColumn in ks && PredictionColumn in ks && ProbabilityColumn in ks;
    ColumnsOfMembers(rows, TimestampColumn);
    ColumnsOfMembers(rows, PredictionColumn);
    ColumnsOfMembers(rows, ProbabilityColumn);
  }

  // ---------------------------------------------------------------------
  // The page

  /** What the page shows. */
  datatype HistoryView =
    | LoginRequired
    | FetchFailed
    | NoHistory
    | Listing(columns: seq<string>, rows: seq<Record>)

  /** Turns the fetched rows into `transaction_data`, one flattened dict each. */
  method FlattenRows(records: seq<HistoryRow>) returns (data: seq<Record>)
    ensures |data| == |records|
    ensures forall i | 0 <= i < |records| :: data[i] == FlatRow(records[i])
  {
    data := [];
    var i := 0;
    while i < |records|
      invariant 0 <= i <= |records|
      invariant |data| == i
      invariant forall k | 0 <= k < i :: data[k] == FlatRow(records[k])
    {
      data := data + [FlatRow(records[i])];
      i := i + 1;
    }
  }

  /** A visit to the page. Without a login nothing is fetched; a missing
      table is a `sqlite3.Error` the page reports; no rows give the "no
      history" message; otherwise the table of flattened rows, newest first,
      with the reordered columns. */
  method ShowHistory(session: Session, db: Database) returns (view: HistoryView)
    requires session.Valid() && db.Valid()
    ensures !session.loggedIn ==> view == LoginRequired
    ensures session.loggedIn && !db.hasTransactionsTable ==> view == FetchFailed
    ensures session.loggedIn && db.hasTransactionsTable ==>
              var records := SelectHistory(db.transactions, session.userId.value);
              if records == [] then view == NoHistory
              else
                && view.Listing?
                && |view.rows| == |records|
                && (forall i | 0 <= i < |records| :: view.rows[i] == FlatRow(records[i]))
                && ReorderColumns(ColumnsOf(view.rows)) == Some(view.columns)
  {
    if !session.loggedIn {
      return LoginRequired;
    }
    if !db.hasTransactionsTable {
      return FetchFailed;
    }
    var records := SelectHistory(db.transactions, session.userId.value);
    if records == [] {
      return NoHistory;
    }
    var data := FlattenRows(records);
    FlatRowStartsFixed(records[0]);
    ReorderFlatRows(data);
    view := Listing(ReorderColumns(ColumnsOf(data)).value, data);
  }
}
