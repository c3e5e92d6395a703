/** `pd.get_dummies(df, columns=..., drop_first=True)`: each listed column
    is replaced by one indicator column per category it holds, except the
    first category in ascending order; labels are `field + "_" + category`
    and the indicator columns follow the kept columns, field by field. */
module Dummies {
  import opened Common
  import opened Frames

  predicate AllText(vals: seq<Value>) {
    forall i | 0 <= i < |vals| :: vals[i].Str?
  }

  lemma AllTextSingle(v: Value)
    ensures AllText([v]) <==> v.Str?
  {
    assert [v][0] == v;
  }

  function Texts(vals: seq<Value>): (t: seq<string>)
    requires AllText(vals)
    ensures |t| == |vals| && forall i | 0 <= i < |vals| :: vals[i] == Str(t[i])
  {
    seq(|vals|, i requires 0 <= i < |vals| => vals[i].s)
  }

  /** The categories of a column of strings: its distinct values, ascending. */
  function Categories(vals: seq<Value>): (cats: seq<string>)
    requires AllText(vals)
    ensures StrictlySorted(cats)
    ensures forall v :: v in cats <==> Str(v) in vals
  {
    var t := Texts(vals);
    assert forall v :: v in t <==> Str(v) in vals by {
      forall v ensures v in t <==> Str(v) in vals {
        if Str(v) in vals {
          var i :| 0 <= i < |vals| && vals[i] == Str(v);
          assert t[i] == v;
        }
      }
    }
    SortedUnique(t)
  }

  /** 1 in the rows holding `v`, 0 elsewhere. */
  function Indicator(vals: seq<Value>, v: string): (r: seq<Value>)
    ensures |r| == |vals|
  {
    seq(|vals|, i requires 0 <= i < |vals| => if vals[i] == Str(v) then Num(1.0) else Num(0.0))
  }

  /** The indicator columns of one field: every category but the first. */
  function Block(field: string, vals: seq<Value>): (r: seq<Column>)
    requires AllText(vals)
    ensures forall c | c in r :: |c.values| == |vals|
  {
    var cats := Categories(vals);
    if |cats| == 0 then []
    else seq(|cats| - 1, k requires 0 <= k < |cats| - 1 =>
           Column(field + "_" + cats[k + 1], Indicator(vals, cats[k + 1])))
  }

  /** The listed fields the frame lacks, in the order listed. */
  function Missing(cols: seq<Column>, encode: seq<string>): (r: seq<string>)
    ensures forall c :: c in r <==> c in encode && c !in Names(cols)
  {
    if |encode| == 0 then []
    else (if encode[0] in Names(cols) then [] else [encode[0]]) + Missing(cols, encode[1..])
  }

  /** The listed fields whose column holds something other than strings. */
  function NonText(cols: seq<Column>, encode: seq<string>): (r: seq<string>)
    ensures forall c :: c in r <==> c in encode && Find(cols, c).Some? && !AllText(Find(cols, c).value)
  {
    if |encode| == 0 then []
    else
      var bad := Find(cols, encode[0]).Some? && !AllText(Find(cols, encode[0]).value);
      (if bad then [encode[0]] else []) + NonText(cols, encode[1..])
  }

  /** Every listed field is present and holds strings only. */
  predicate Encodable(cols: seq<Column>, encode: seq<string>) {
    forall c | c in encode :: Find(cols, c).Some? && AllText(Find(cols, c).value)
  }

  function Blocks(cols: seq<Column>, encode: seq<string>): (r: seq<Column>)
    requires Encodable(cols, encode)
  {
    if |encode| == 0 then []
    else Block(encode[0], Find(cols, encode[0]).value) + Blocks(cols, encode[1..])
  }

  function GetDummies(f: Frame, encode: seq<string>): (r: Result<Frame, PipelineError>)
    requires WellFormed(f)
  {
    var missing := Missing(f.columns, encode);
    var nonText := NonText(f.columns, encode);
    if |missing| > 0 then Err(MissingColumns(missing))
    else if |nonText| > 0 then Err(NotText(nonText[0]))
    else
      var cols := Without(f.columns, encode) + Blocks(f.columns, encode);
      if Distinct(Names(cols)) then Ok(Frame(f.height, cols)) else Err(DuplicateLabels)
  }

  // ---------------------------------------------------------------------
  // What the indicator columns of one field are

  lemma LabelInjective(field: string, v: string, u: string)
    requires field + "_" + v == field + "_" + u
    ensures v == u
  {
    assert v == (field + "_" + v)[|field| + 1..];
    assert u == (field + "_" + u)[|field| + 1..];
  }

  /** Every indicator column stands for a category the column holds that is
      not the smallest one. */
  lemma BlockSound(field: string, vals: seq<Value>, c: Column)
    requires AllText(vals) && c in Block(field, vals)
    ensures exists v :: Str(v) in vals && c == Column(field + "_" + v, Indicator(vals, v))
                        && exists w :: Str(w) in vals && StrLt(w, v)
  {
    var cats := Categories(vals);
    var k :| 0 <= k < |Block(field, vals)| && Block(field, vals)[k] == c;
    var v := cats[k + 1];
    assert Str(v) in vals;
    assert StrLt(cats[0], v) && Str(cats[0]) in vals;
  }

  /** Every category the column holds, except the smallest, gets its column. */
  lemma BlockComplete(field: string, vals: seq<Value>, v: string, w: string)
    requires AllText(vals) && Str(v) in vals && Str(w) in vals && StrLt(w, v)
    ensures Column(field + "_" + v, Indicator(vals, v)) in Block(field, vals)
  {
    var k := LaterCategory(vals, v, w);
    BlockAt(field, vals, k);
  }

  /** A category above some other category is not the first one. */
  lemma LaterCategory(vals: seq<Value>, v: string, w: string) returns (k: nat)
    requires AllText(vals) && Str(v) in vals && Str(w) in vals && StrLt(w, v)
    ensures 1 <= k < |Categories(vals)| && Categories(vals)[k] == v
  {
    var cats := Categories(vals);
    assert v in cats && w in cats;
    k :| 0 <= k < |cats| && cats[k] == v;
    FirstIsSmallest(cats, v);
  }

  lemma BlockAt(field: string, vals: seq<Value>, k: nat)
    requires AllText(vals) && 1 <= k < |Categories(vals)|
    ensures var v := Categories(vals)[k];
            |Block(field, vals)| == |Categories(vals)| - 1
            && Block(field, vals)[k - 1] == Column(field + "_" + v, Indicator(vals, v))
  {
  }

  /** The smallest category is the baseline: no column is labelled with it. */
  lemma BlockOmitsSmallest(field: string, vals: seq<Value>, v: string)
    requires AllText(vals) && Str(v) in vals
    requires forall w | Str(w) in vals :: !StrLt(w, v)
    ensures field + "_" + v !in Names(Block(field, vals))
  {
    if field + "_" + v in Names(Block(field, vals)) {
      var k :| 0 <= k < |Block(field, vals)| && Block(field, vals)[k].name == field + "_" + v;
      BlockSound(field, vals, Block(field, vals)[k]);
      var u :| Str(u) in vals && Block(field, vals)[k] == Column(field + "_" + u, Indicator(vals, u))
               && exists w :: Str(w) in vals && StrLt(w, u);
      LabelInjective(field, v, u);
    }
  }

  /** Row `i` holds 1 in the column of its own category and 0 in every other
      one; it is all zeros exactly when its category is the smallest. */
  lemma OneHot(field: string, vals: seq<Value>, i: nat)
    requires AllText(vals) && i < |vals|
    ensures forall c | c in Block(field, vals) :: c.values[i] == Num(1.0) <==> c.name == field + "_" + vals[i].s
    ensures forall c | c in Block(field, vals) :: c.values[i] == Num(0.0) || c.values[i] == Num(1.0)
    ensures (forall c | c in Block(field, vals) :: c.values[i] == Num(0.0))
        <==> (forall w | Str(w) in vals :: !StrLt(w, vals[i].s))
  {
    var b := Block(field, vals);
    forall c | c in b ensures c.values[i] == Num(1.0) <==> c.name == field + "_" + vals[i].s {
      BlockSound(field, vals, c);
      var v :| Str(v) in vals && c == Column(field + "_" + v, Indicator(vals, v))
               && exists w :: Str(w) in vals && StrLt(w, v);
      if c.name == field + "_" + vals[i].s {
        LabelInjective(field, v, vals[i].s);
      }
    }
    forall c | c in b ensures c.values[i] == Num(0.0) || c.values[i] == Num(1.0) {
      BlockSound(field, vals, c);
    }
    var own := Column(field + "_" + vals[i].s, Indicator(vals, vals[i].s));
    assert Str(vals[i].s) in vals by { assert vals[i] == Str(vals[i].s); }
    if w :| Str(w) in vals && StrLt(w, vals[i].s) {
      BlockComplete(field, vals, vals[i].s, w);
      assert own.values[i] == Num(1.0);
    } else {
      BlockOmitsSmallest(field, vals, vals[i].s);
    }
  }

  // ---------------------------------------------------------------------
  // A frame of one row, as `predict_transaction` builds

  /** One row holds one category, which is the baseline: no indicator columns. */
  lemma SingleRowBlock(field: string, vals: seq<Value>)
    requires AllText(vals) && |vals| == 1
    ensures Block(field, vals) == []
  {
    var cats := Categories(vals);
    assert vals[0] == Str(vals[0].s);
    assert vals[0].s in cats;
    if |cats| > 1 {
      assert Str(cats[0]) in vals && Str(cats[1]) in vals;
      assert cats[0] == cats[1];
      StrLtIrreflexive(cats[0]);
    }
  }

  lemma {:induction false} SingleRowBlocks(cols: seq<Column>, encode: seq<string>)
    requires Encodable(cols, encode) && Tall(cols, 1)
    ensures Blocks(cols, encode) == []
  {
    if |encode| > 0 {
      FindHeight(cols, 1, encode[0]);
      SingleRowBlock(encode[0], Find(cols, encode[0]).value);
      assert Encodable(cols, encode[1..]) by {
        forall c | c in encode[1..] ensures c in encode { }
      }
      SingleRowBlocks(cols, encode[1..]);
    }
  }

  /** On a one-row frame the listed fields are dropped and nothing is added. */
  lemma GetDummiesSingleRow(f: Frame, encode: seq<string>)
    requires WellFormed(f) && f.height == 1 && Encodable(f.columns, encode)
    ensures GetDummies(f, encode) == Ok(Frame(1, Without(f.columns, encode)))
  {
    SingleRowBlocks(f.columns, encode);
    WithoutDistinct(f.columns, encode);
    assert Without(f.columns, encode) + [] == Without(f.columns, encode);
    if |Missing(f.columns, encode)| > 0 {
      assert Missing(f.columns, encode)[0] in Missing(f.columns, encode);
    }
    if |NonText(f.columns, encode)| > 0 {
      assert NonText(f.columns, encode)[0] in NonText(f.columns, encode);
    }
  }

  /** The encoding fails exactly when a listed field is absent or not text,
      or when the new labels clash; otherwise it keeps the height and the
      labels are distinct. */
  lemma GetDummiesOk(f: Frame, encode: seq<string>)
    requires WellFormed(f)
    ensures GetDummies(f, encode).Ok?
        <==> Encodable(f.columns, encode)
             && Distinct(Names(Without(f.columns, encode) + Blocks(f.columns, encode)))
    ensures GetDummies(f, encode).Ok? ==> WellFormed(GetDummies(f, encode).value)
                                          && GetDummies(f, encode).value.height == f.height
    ensures GetDummies(f, encode).Err? && GetDummies(f, encode).error.MissingColumns?
        ==> forall c :: c in GetDummies(f, encode).error.names <==> c in encode && c !in Names(f.columns)
  {
    var m := Missing(f.columns, encode);
    var n := NonText(f.columns, encode);
    if |m| > 0 {
      assert m[0] in m;
    } else if |n| > 0 {
      assert n[0] in n;
    } else {
      assert Encodable(f.columns, encode);
      var cols := Without(f.columns, encode) + Blocks(f.columns, encode);
      WithoutTall(f.columns, f.height, encode);
      BlocksTall(f.columns, f.height, encode);
    }
  }

  lemma {:induction false} BlocksTall(cols: seq<Column>, height: nat, encode: seq<string>)
    requires Encodable(cols, encode) && Tall(cols, height)
    ensures forall c | c in Blocks(cols, encode) :: |c.values| == height
  {
    if |encode| > 0 {
      FindHeight(cols, height, encode[0]);
      assert Encodable(cols, encode[1..]) by {
        forall c | c in encode[1..] ensures c in encode { }
      }
      BlocksTall(cols, height, encode[1..]);
    }
  }
}
