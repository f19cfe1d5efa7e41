/** The batch driver of lines 141-153: for each from-to pair, in order, look up
    both points and append `(from, to, Sigma_hd)`. */
module Driver {
  import opened Tables

  /** One element of `FromTo_Sigma_hd`. */
  datatype Row<V> = Row(from: string, to: string, sigma: V)

  /** `Coords[id]` while processing pair number `pair`. */
  function Lookup<C>(coords: map<string, Coord<C>>, id: string, pair: nat): (r: Result<Coord<C>>)
    ensures r.Ok? <==> id in coords
    ensures r.Ok? ==> r.value == coords[id]
    ensures r.Err? ==> r.error == UnknownPoint(pair, id)
  {
    if id in coords then Ok(coords[id]) else Err(UnknownPoint(pair, id))
  }

  /** The body of the loop for pair number `k`: the from point is looked up
      first (line 143), then the to point (line 144). `sigma` stands for
      `Sigma_horizontal_distance` with the run's precision settings. */
  function SigmaRow<C, V>(coords: map<string, Coord<C>>, p: Pair, k: nat, sigma: (Coord<C>, Coord<C>) -> V): (r: Result<Row<V>>)
    ensures r.Ok? <==> Known(coords, p)
    ensures r.Ok? ==> r.value == Row(p.from, p.to, sigma(coords[p.from], coords[p.to]))
    ensures r.Err? ==> r.error == UnknownPoint(k, if p.from in coords then p.to else p.from)
  {
    match Lookup(coords, p.from, k)
    case Err(e) => Err(e)
    case Ok(a) =>
      match Lookup(coords, p.to, k)
      case Err(e) => Err(e)
      case Ok(b) => Ok(Row(p.from, p.to, sigma(a, b)))
  }

  /** `FromTo_Sigma_hd` after the loop has processed `pairs`. */
  function SigmaRows<C, V>(coords: map<string, Coord<C>>, pairs: seq<Pair>, sigma: (Coord<C>, Coord<C>) -> V): (r: Result<seq<Row<V>>>)
    ensures r.Ok? ==> |r.value| == |pairs|
    ensures r.Err? ==> r.error.UnknownPoint? && r.error.pair < |pairs|
    decreases |pairs|
  {
    if pairs == [] then Ok([])
    else
      var n := |pairs| - 1;
      match SigmaRows(coords, pairs[..n], sigma)
      case Err(e) => Err(e)
      case Ok(rows) =>
        match SigmaRow(coords, pairs[n], n, sigma)
        case Err(e) => Err(e)
        case Ok(row) => Ok(rows + [row])
  }

  /** The loop of lines 141-153. */
  method ComputeSigmas<C, V>(coords: map<string, Coord<C>>, pairs: seq<Pair>, sigma: (Coord<C>, Coord<C>) -> V)
    returns (r: Result<seq<Row<V>>>)
    ensures r == SigmaRows(coords, pairs, sigma)
  {
    var rows: seq<Row<V>> := [];
    var i := 0;
    while i < |pairs|
      invariant 0 <= i <= |pairs|
      invariant SigmaRows(coords, pairs[..i], sigma) == Ok(rows)
    {
      assert pairs[..i + 1][..i] == pairs[..i];
      var p := pairs[i];
      if p.from !in coords {
        r := Err(UnknownPoint(i, p.from));
        SigmaRowsStop(coords, pairs, sigma, i + 1);
        return;
      }
      var fromCoord := coords[p.from];
      if p.to !in coords {
        r := Err(UnknownPoint(i, p.to));
        SigmaRowsStop(coords, pairs, sigma, i + 1);
        return;
      }
      var toCoord := coords[p.to];
      rows := rows + [Row(p.from, p.to, sigma(fromCoord, toCoord))];
      i := i + 1;
    }
    assert pairs[..i] == pairs;
    r := Ok(rows);
  }

  lemma {:induction false} SigmaRowsStop<C, V>(coords: map<string, Coord<C>>, pairs: seq<Pair>, sigma: (Coord<C>, Coord<C>) -> V, i: nat)
    requires i <= |pairs| && SigmaRows(coords, pairs[..i], sigma).Err?
    ensures SigmaRows(coords, pairs, sigma) == SigmaRows(coords, pairs[..i], sigma)
    decreases |pairs| - i
  {
    if i < |pairs| {
      assert pairs[..i + 1][..i] == pairs[..i];
      SigmaRowsStop(coords, pairs, sigma, i + 1);
    } else {
      assert pairs[..i] == pairs;
    }
  }

  /** Both points of the pair are in the dictionary. */
  predicate Known<C>(coords: map<string, Coord<C>>, p: Pair) {
    p.from in coords && p.to in coords
  }

  /** The results follow the pairs one for one and in order, each carrying the
      pair's identifiers and `sigma` of the looked-up coordinates; the first pair
      naming an unknown point stops the batch with a KeyError for that point,
      the from point being looked up first. */
  lemma {:induction false} SigmaRowsContents<C, V>(coords: map<string, Coord<C>>, pairs: seq<Pair>, sigma: (Coord<C>, Coord<C>) -> V)
    ensures SigmaRows(coords, pairs, sigma).Ok? <==> forall i :: 0 <= i < |pairs| ==> Known(coords, pairs[i])
    ensures SigmaRows(coords, pairs, sigma).Ok? ==>
      var rows := SigmaRows(coords, pairs, sigma).value;
      && |rows| == |pairs|
      && forall i :: 0 <= i < |pairs| ==>
           (Known(coords, pairs[i]) && rows[i] == Row(pairs[i].from, pairs[i].to, sigma(coords[pairs[i].from], coords[pairs[i].to])))
    ensures SigmaRows(coords, pairs, sigma).Err? ==>
      var e := SigmaRows(coords, pairs, sigma).error;
      && e.UnknownPoint? && e.pair < |pairs| && !Known(coords, pairs[e.pair])
      && e.id == (if pairs[e.pair].from in coords then pairs[e.pair].to else pairs[e.pair].from)
      && forall i :: 0 <= i < e.pair ==> Known(coords, pairs[i])
    decreases |pairs|
  {
    if pairs != [] {
      var n := |pairs| - 1;
      SigmaRowsContents(coords, pairs[..n], sigma);
      assert forall i :: 0 <= i < n ==> pairs[..n][i] == pairs[i];
    }
  }
}
