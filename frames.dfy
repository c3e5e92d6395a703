/** The few pandas DataFrame operations the feature pipeline uses, on a
    frame kept column by column: assigning a column, dropping columns and
    reindexing against a fixed list of column names. */
module Frames {
  import opened Common
  import opened Calendar

  /** A cell: a number (pandas int, float or indicator), a string, or a parsed timestamp. */
  datatype Value = Num(x: real) | Str(s: string) | When(stamp: Stamp)

  datatype Column = Column(name: string, values: seq<Value>)

  /** What makes `predict_transaction` raise: a KeyError for absent columns,
      a TypeError for a field that is not text, a ValueError from the date
      parser, and duplicate labels (which `reindex` refuses). */
  datatype PipelineError = MissingColumns(names: seq<string>) | NotText(name: string)
                         | BadDateTime | DuplicateLabels

  /** `height` rows; each column holds one value per row. */
  datatype Frame = Frame(height: nat, columns: seq<Column>)

  function Names(cols: seq<Column>): (names: seq<string>)
    ensures |names| == |cols|
    ensures forall i | 0 <= i < |cols| :: names[i] == cols[i].name
  {
    seq(|cols|, i requires 0 <= i < |cols| => cols[i].name)
  }

  predicate Tall(cols: seq<Column>, height: nat) {
    forall i | 0 <= i < |cols| :: |cols[i].values| == height
  }

  lemma NamesCons(c: Column, rest: seq<Column>)
    ensures Names([c] + rest) == [c.name] + Names(rest)
  {
    assert forall i | 1 <= i < |rest| + 1 :: ([c] + rest)[i] == rest[i - 1];
  }

  lemma TallCons(c: Column, rest: seq<Column>, height: nat)
    requires |c.values| == height && Tall(rest, height)
    ensures Tall([c] + rest, height)
  {
    assert forall i | 1 <= i < |rest| + 1 :: ([c] + rest)[i] == rest[i - 1];
  }

  /** Column labels are unique and every column has one value per row. */
  predicate WellFormed(f: Frame) {
    Distinct(Names(f.columns)) && Tall(f.columns, f.height)
  }

  /** `df[name]`: the values of the column so labelled, None for a KeyError. */
  function Find(cols: seq<Column>, name: string): (r: Option<seq<Value>>)
    ensures r.None? <==> name !in Names(cols)
    ensures r.Some? ==> Column(name, r.value) in cols
  {
    if |cols| == 0 then None
    else if cols[0].name == name then Some(cols[0].values)
    else
      assert Names(cols) == [cols[0].name] + Names(cols[1..]);
      Find(cols[1..], name)
  }

  lemma FindHeight(cols: seq<Column>, height: nat, name: string)
    requires Tall(cols, height) && Find(cols, name).Some?
    ensures |Find(cols, name).value| == height
  {
  }

  lemma {:induction false} FindAt(cols: seq<Column>, i: nat)
    requires Distinct(Names(cols)) && i < |cols|
    ensures Find(cols, cols[i].name) == Some(cols[i].values)
  {
    if i > 0 {
      assert Names(cols[1..])[i - 1] == cols[i].name;
      assert Names(cols)[0] != Names(cols)[i];
      assert Names(cols[1..]) == Names(cols)[1..];
      FindAt(cols[1..], i - 1);
    }
  }

  lemma {:induction false} FindAppend(a: seq<Column>, b: seq<Column>, name: string)
    ensures Find(a + b, name) == if Find(a, name).Some? then Find(a, name) else Find(b, name)
  {
    if |a| > 0 {
      assert (a + b)[1..] == a[1..] + b;
      FindAppend(a[1..], b, name);
    } else {
      assert a + b == b;
    }
  }

  // ---------------------------------------------------------------------
  // `df[name] = values`

  /** Overwrites the column in place when the label exists, else appends it. */
  function SetColumn(cols: seq<Column>, name: string, vals: seq<Value>): (r: seq<Column>)
  {
    if name in Names(cols) then
      seq(|cols|, i requires 0 <= i < |cols| =>
        if cols[i].name == name then Column(name, vals) else cols[i])
    else cols + [Column(name, vals)]
  }

  lemma SetColumnNames(cols: seq<Column>, name: string, vals: seq<Value>)
    ensures Names(SetColumn(cols, name, vals))
         == if name in Names(cols) then Names(cols) else Names(cols) + [name]
  {
  }

  lemma SetColumnWellFormed(cols: seq<Column>, height: nat, name: string, vals: seq<Value>)
    requires Distinct(Names(cols)) && Tall(cols, height) && |vals| == height
    ensures Distinct(Names(SetColumn(cols, name, vals))) && Tall(SetColumn(cols, name, vals), height)
  {
    SetColumnNames(cols, name, vals);
  }

  /** After the assignment the label reads the new values and every other
      label reads what it read before. */
  lemma {:induction false} FindSetColumn(cols: seq<Column>, name: string, vals: seq<Value>, other: string)
    requires Distinct(Names(cols))
    ensures Find(SetColumn(cols, name, vals), other)
         == if other == name then Some(vals) else Find(cols, other)
  {
    SetColumnNames(cols, name, vals);
    var r := SetColumn(cols, name, vals);
    if name in Names(cols) {
      if other in Names(cols) {
        var i :| 0 <= i < |cols| && cols[i].name == other;
        assert r[i].name == other;
        FindAt(cols, i);
        FindAt(r, i);
      }
    } else {
      FindAppend(cols, [Column(name, vals)], other);
    }
  }

  // ---------------------------------------------------------------------
  // `df.drop(columns=...)` and the columns `get_dummies` keeps

  /** The columns whose labels are not in `drop`, in their original order. */
  function Without(cols: seq<Column>, drop: seq<string>): (r: seq<Column>)
    ensures forall c | c in r :: c in cols && c.name !in drop
  {
    if |cols| == 0 then []
    else (if cols[0].name in drop then [] else [cols[0]]) + Without(cols[1..], drop)
  }

  lemma {:induction false} FindWithout(cols: seq<Column>, drop: seq<string>, name: string)
    ensures Find(Without(cols, drop), name) == if name in drop then None else Find(cols, name)
  {
    if |cols| > 0 {
      FindWithout(cols[1..], drop, name);
      FindAppend(if cols[0].name in drop then [] else [cols[0]], Without(cols[1..], drop), name);
    }
  }

  lemma {:induction false} WithoutNames(cols: seq<Column>, drop: seq<string>)
    ensures forall n :: n in Names(Without(cols, drop)) <==> n in Names(cols) && n !in drop
  {
    forall n ensures n in Names(Without(cols, drop)) <==> n in Names(cols) && n !in drop {
      FindWithout(cols, drop, n);
    }
  }

  lemma WithoutTall(cols: seq<Column>, height: nat, drop: seq<string>)
    requires Tall(cols, height)
    ensures Tall(Without(cols, drop), height)
  {
    var r := Without(cols, drop);
    forall i | 0 <= i < |r| ensures |r[i].values| == height {
      assert r[i] in cols;
    }
  }

  /** A column whose label is new keeps the labels distinct in front. */
  lemma ConsDistinctNames(c: Column, rest: seq<Column>)
    requires Distinct(Names(rest)) && c.name !in Names(rest)
    ensures Distinct(Names([c] + rest))
  {
    assert Names([c] + rest) == [c.name] + Names(rest);
    DistinctConcat([c.name], Names(rest));
  }

  /** Under distinct labels the first label does not recur in the rest. */
  lemma NamesTail(cols: seq<Column>)
    requires Distinct(Names(cols)) && |cols| > 0
    ensures Distinct(Names(cols[1..])) && cols[0].name !in Names(cols[1..])
  {
    DistinctTail(Names(cols));
    assert Names(cols[1..]) == Names(cols)[1..];
  }

  lemma {:induction false} WithoutDistinct(cols: seq<Column>, drop: seq<string>)
    requires Distinct(Names(cols))
    ensures Distinct(Names(Without(cols, drop)))
  {
    if |cols| > 0 {
      NamesTail(cols);
      WithoutDistinct(cols[1..], drop);
      var rest := Without(cols[1..], drop);
      if cols[0].name !in drop {
        WithoutNames(cols[1..], drop);
        assert Without(cols, drop) == [cols[0]] + rest;
        ConsDistinctNames(cols[0], rest);
      } else {
        assert Without(cols, drop) == rest;
      }
    }
  }

  lemma WithoutWellFormed(cols: seq<Column>, height: nat, drop: seq<string>)
    requires Distinct(Names(cols)) && Tall(cols, height)
    ensures Distinct(Names(Without(cols, drop))) && Tall(Without(cols, drop), height)
  {
    WithoutTall(cols, height, drop);
    WithoutDistinct(cols, drop);
  }

  // ---------------------------------------------------------------------
  // `df.reindex(columns=names, fill_value=0)`

  function Zeros(height: nat): (z: seq<Value>)
    ensures |z| == height && forall i | 0 <= i < height :: z[i] == Num(0.0)
  {
    seq(height, i => Num(0.0))
  }

  /** Exactly the labels `names`, in that order: a label the frame has keeps
      its values, a missing one is filled with zeros, any other label is
      dropped. */
  function Reindex(f: Frame, names: seq<string>): (r: Frame)
    ensures Names(r.columns) == names && r.height == f.height
  {
    Frame(f.height, seq(|names|, j requires 0 <= j < |names| =>
      Column(names[j], match Find(f.columns, names[j])
                       case Some(vals) => vals
                       case None => Zeros(f.height))))
  }

  /** Each output column reads the input's column of that label, or zeros. */
  lemma ReindexColumn(f: Frame, names: seq<string>, j: nat)
    requires WellFormed(f) && j < |names|
    ensures Reindex(f, names).columns[j].values
         == if names[j] in Names(f.columns) then Find(f.columns, names[j]).value else Zeros(f.height)
    ensures |Reindex(f, names).columns[j].values| == f.height
  {
    if names[j] in Names(f.columns) {
      FindHeight(f.columns, f.height, names[j]);
    }
  }

  lemma ReindexTall(f: Frame, names: seq<string>)
    requires Tall(f.columns, f.height)
    ensures Tall(Reindex(f, names).columns, f.height)
  {
    forall j | 0 <= j < |names| ensures |Reindex(f, names).columns[j].values| == f.height {
      if names[j] in Names(f.columns) {
        FindHeight(f.columns, f.height, names[j]);
      }
    }
  }

  /** Columns whose labels are not among `names` have no influence: the
      extras are dropped whatever they hold. */
  lemma ReindexIgnoresExtras(f: Frame, names: seq<string>, extras: seq<string>)
    requires forall n | n in extras :: n !in names
    ensures Reindex(Frame(f.height, Without(f.columns, extras)), names) == Reindex(f, names)
  {
    forall n | n in names ensures Find(Without(f.columns, extras), n) == Find(f.columns, n) {
      FindWithout(f.columns, extras, n);
    }
  }

  /** Reindexing twice against the same labels changes nothing more. */
  lemma ReindexIdempotent(f: Frame, names: seq<string>)
    requires WellFormed(f) && Distinct(names)
    ensures Reindex(Reindex(f, names), names) == Reindex(f, names)
  {
    var r := Reindex(f, names);
    forall j | 0 <= j < |names| ensures Find(r.columns, names[j]) == Some(r.columns[j].values) {
      FindAt(r.columns, j);
    }
  }
}
