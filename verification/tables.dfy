/** The pad-and-stack step the parser applies to every family of ragged
    records: one row per record, as many columns as the longest record, and
    NaN padding (here `None`) after each record's own data. */
module Tables {
  import opened Wrappers

  /** A row of a stacked table; `None` is a NaN padding cell. */
  type Row = seq<Option<real>>

  /** One ragged record of a family: its scalar attributes, the series that
      fixes the table width (`r`, `eresid` or `e`), and the companion series
      stored beside it (`v_sl`; `wfn_ae`, `wfn_ps`; `proj`; `ecut`;
      `log_deriv_ae`, `log_deriv_ps`), in that order. */
  datatype Curve = Curve(meta: map<string, real>, x: seq<real>, ys: seq<seq<real>>)

  /** The stacked family: one column per scalar attribute, the padded table of
      the width-fixing series, and one padded table per companion series. */
  datatype Table = Table(columns: map<string, seq<real>>, x: seq<Row>, ys: seq<seq<Row>>)

  /** Why stacking raises: a record lacks an attribute of the first record
      (`KeyError`), or a companion series does not fit in the row (numpy's
      `ValueError` on a shape mismatch). */
  datatype StackError = MissingKey | SeriesTooLong

  /** The length of the longest series; 0 when there are none. */
  function MaxLength(xs: seq<seq<real>>): (w: nat)
    ensures forall i :: 0 <= i < |xs| ==> |xs[i]| <= w
    ensures |xs| > 0 ==> exists i :: 0 <= i < |xs| && |xs[i]| == w
    ensures |xs| == 0 ==> w == 0
  {
    if |xs| == 0 then 0
    else
      var rest := MaxLength(xs[1..]);
      if |xs[0]| >= rest then |xs[0]| else rest
  }

  /** The width-fixing series of every record. */
  function Xs(curves: seq<Curve>): (xs: seq<seq<real>>)
    ensures |xs| == |curves|
    ensures forall i :: 0 <= i < |curves| ==> xs[i] == curves[i].x
  {
    seq(|curves|, i requires 0 <= i < |curves| => curves[i].x)
  }

  /** The width of the stacked table: the longest width-fixing series. */
  function Width(curves: seq<Curve>): nat
  {
    MaxLength(Xs(curves))
  }

  /** A row holding `s` in its first cells and padding after them. A series
      longer than the row keeps only the cells the row has room for, which is
      what numpy writes when it broadcasts a single value into an empty slice. */
  function Pad(s: seq<real>, width: nat): (r: Row)
    ensures |r| == width
  {
    seq(width, j requires 0 <= j < width => if j < |s| then Some(s[j]) else None)
  }

  /** The data in front of the first padding cell of a row. */
  function Unpad(r: Row): (s: seq<real>)
    ensures |s| <= |r|
  {
    if |r| == 0 || r[0].None? then [] else [r[0].value] + Unpad(r[1..])
  }

  /** Padding loses nothing: the record's data is read back from its row. */
  lemma {:induction false} UnpadPad(s: seq<real>, width: nat)
    requires |s| <= width
    ensures Unpad(Pad(s, width)) == s
    decreases width
  {
    var r := Pad(s, width);
    if width == 0 {
    } else if |s| == 0 {
      assert r[0] == None;
    } else {
      assert r[1..] == Pad(s[1..], width - 1);
      UnpadPad(s[1..], width - 1);
      assert s == [s[0]] + s[1..];
    }
  }

  /** Every record carries every attribute in `keys`. */
  predicate HasKeys(curves: seq<Curve>, keys: set<string>)
  {
    forall i, k :: 0 <= i < |curves| && k in keys ==> k in curves[i].meta
  }

  /** numpy accepts `row[:len(s)] = s` when the slice, clipped to the row,
      has exactly `len(s)` cells, or when `s` has one value to broadcast. */
  predicate Assignable(s: seq<real>, width: nat)
  {
    |s| <= width || |s| == 1
  }

  /** Every companion series of every record can be written into a row of
      `width` cells. */
  predicate Fits(curves: seq<Curve>, width: nat)
  {
    forall i, s :: 0 <= i < |curves| && 0 <= s < |curves[i].ys| ==> Assignable(curves[i].ys[s], width)
  }

  /** One column per attribute, holding that attribute of every record in
      record order. */
  function Columns(curves: seq<Curve>, keys: set<string>): (cols: map<string, seq<real>>)
    requires HasKeys(curves, keys)
    ensures cols.Keys == keys
    ensures forall k :: k in keys ==> |cols[k]| == |curves|
    ensures forall k, i :: k in keys && 0 <= i < |curves| ==> cols[k][i] == curves[i].meta[k]
  {
    map k | k in keys :: seq(|curves|, i requires 0 <= i < |curves| => curves[i].meta[k])
  }

  /** Stacks a non-empty family whose records all have `arity` companion
      series. The attribute columns are taken for `keys` first, then every
      series is copied into its padded row. On success the table has one row
      per record and the width of the longest width-fixing series, each
      companion table has the same shape, and row `i` holds the record's own
      data first and padding after it. */
  function Stack(curves: seq<Curve>, keys: set<string>, arity: nat): (r: Result<Table, StackError>)
    requires |curves| > 0
    requires forall i :: 0 <= i < |curves| ==> |curves[i].ys| == arity
    ensures r.Success? <==> HasKeys(curves, keys) && Fits(curves, Width(curves))
    ensures !HasKeys(curves, keys) ==> r == Failure(MissingKey)
    ensures HasKeys(curves, keys) && !Fits(curves, Width(curves)) ==> r == Failure(SeriesTooLong)
    ensures r.Success? ==>
      var t := r.value;
      && t.columns.Keys == keys
      && (forall k :: k in keys ==> |t.columns[k]| == |curves|)
      && (forall k, i :: k in keys && 0 <= i < |curves| ==> t.columns[k][i] == curves[i].meta[k])
      && |t.x| == |curves|
      && (forall i :: 0 <= i < |curves| ==> |t.x[i]| == Width(curves))
      && |t.ys| == arity
      && (forall s :: 0 <= s < arity ==> |t.ys[s]| == |curves|)
      && (forall s, i :: 0 <= s < arity && 0 <= i < |curves| ==> |t.ys[s][i]| == Width(curves))
      && (forall i, j :: 0 <= i < |curves| && 0 <= j < Width(curves) ==>
            t.x[i][j] == (if j < |curves[i].x| then Some(curves[i].x[j]) else None))
      && (forall s, i, j :: 0 <= s < arity && 0 <= i < |curves| && 0 <= j < Width(curves) ==>
            t.ys[s][i][j] == (if j < |curves[i].ys[s]| then Some(curves[i].ys[s][j]) else None))
  {
    var w := Width(curves);
    if !HasKeys(curves, keys) then Failure(MissingKey)
    else if !Fits(curves, w) then Failure(SeriesTooLong)
    else
      Success(Table(
        Columns(curves, keys),
        seq(|curves|, i requires 0 <= i < |curves| => Pad(curves[i].x, w)),
        seq(arity, s requires 0 <= s < arity =>
          seq(|curves|, i requires 0 <= i < |curves| => Pad(curves[i].ys[s], w)))))
  }

  /** The width is exactly the length of the longest width-fixing series: no
      record is longer, and some record fills its row. */
  lemma WidthIsLongest(curves: seq<Curve>)
    requires |curves| > 0
    ensures forall i :: 0 <= i < |curves| ==> |curves[i].x| <= Width(curves)
    ensures exists i :: 0 <= i < |curves| && |curves[i].x| == Width(curves)
  {
    var xs := Xs(curves);
    var i :| 0 <= i < |xs| && |xs[i]| == Width(curves);
    assert |curves[i].x| == Width(curves);
  }

  /** Every record's data can be read back from its rows of the stacked
      table; the one exception is a single companion value broadcast into a
      family whose rows have no cells, which leaves nothing to read back. */
  lemma StackKeepsRecords(curves: seq<Curve>, keys: set<string>, arity: nat, i: nat)
    requires |curves| > 0
    requires forall i :: 0 <= i < |curves| ==> |curves[i].ys| == arity
    requires Stack(curves, keys, arity).Success?
    requires i < |curves|
    ensures var t := Stack(curves, keys, arity).value;
      && Unpad(t.x[i]) == curves[i].x
      && forall s :: 0 <= s < arity ==>
           if |curves[i].ys[s]| <= Width(curves) then Unpad(t.ys[s][i]) == curves[i].ys[s]
           else Width(curves) == 0 && |curves[i].ys[s]| == 1 && t.ys[s][i] == []
  {
    var w := Width(curves);
    assert Xs(curves)[i] == curves[i].x;
    UnpadPad(curves[i].x, w);
    forall s | 0 <= s < arity && |curves[i].ys[s]| <= w
      ensures Unpad(Stack(curves, keys, arity).value.ys[s][i]) == curves[i].ys[s]
    {
      UnpadPad(curves[i].ys[s], w);
    }
  }

  /** A family whose width-fixing series are all empty still stacks when each
      companion series holds a single value: numpy broadcasts it into the
      empty row. */
  lemma SingleValueBroadcast(v: real, meta: map<string, real>)
    ensures Stack([Curve(meta, [], [[v]])], meta.Keys, 1).Success?
    ensures Stack([Curve(meta, [], [[v]])], meta.Keys, 1).value.x == [[]]
    ensures Stack([Curve(meta, [], [[v]])], meta.Keys, 1).value.ys == [[[]]]
  {
    var c := Curve(meta, [], [[v]]);
    assert Xs([c]) == [[]];
    assert Width([c]) == 0;
    assert Fits([c], 0) && HasKeys([c], meta.Keys);
    var t := Stack([c], meta.Keys, 1).value;
    assert |t.x| == 1 && |t.x[0]| == 0;
    assert |t.ys| == 1 && |t.ys[0]| == 1 && |t.ys[0][0]| == 0;
    assert t.ys[0] == [[]];
  }
}
