/** Day 8, part 2: connect the closest pairs of junction boxes until every box is in
    one circuit, and multiply the x coordinates of the pair that completed it. */
module Day08Part2 {
  import opened Utils
  import opened Day08Circuits

  /** Every box shares one id. */
  predicate Connected(c: Circuits) {
    forall p, q :: p in c && q in c ==> c[p] == c[q]
  }

  /** The loop of get_last_pair_to_fully_connect from pair k on: an end that is not a
      box fails the assert; a pair whose ends share an id is skipped; after a merge,
      the pair itself is the answer once every box shares one id. */
  function LastPairFrom(c: Circuits, count: nat, pairs: seq<JunctionPair>, k: nat): Checked<Option<JunctionPair>>
    decreases |pairs| - k
  {
    if k >= |pairs| then Ok(None)
    else
      var pr := pairs[k];
      if pr.first !in c || pr.second !in c then Abort
      else if c[pr.first] == c[pr.second] then LastPairFrom(c, count, pairs, k + 1)
      else
        var c' := Merge(c, c[pr.first], c[pr.second], count);
        if Connected(c') then Ok(Some(pr)) else LastPairFrom(c', count + 1, pairs, k + 1)
  }

  /** The state after the first k pairs, as the connection loop of part 1 builds it
      with no limit. */
  function State(c0: Circuits, n0: nat, pairs: seq<JunctionPair>, k: nat): Checked<(Circuits, nat)>
    requires k <= |pairs|
  {
    ConnectAll(c0, n0, pairs[..k])
  }

  /** Pair k is the one that leaves every box in one circuit. */
  predicate ConnectsAt(c0: Circuits, n0: nat, pairs: seq<JunctionPair>, k: nat)
    requires k < |pairs|
  {
    && State(c0, n0, pairs, k).Ok? && State(c0, n0, pairs, k + 1).Ok?
    && !Connected(State(c0, n0, pairs, k).value.0)
    && Connected(State(c0, n0, pairs, k + 1).value.0)
  }

  /** The first index from k on where the pairs connect everything. */
  function FirstConnectFrom(c0: Circuits, n0: nat, pairs: seq<JunctionPair>, k: nat): (r: Option<nat>)
    ensures r.Some? ==> k <= r.value < |pairs| && ConnectsAt(c0, n0, pairs, r.value)
    ensures r.Some? ==> forall j :: k <= j < r.value ==> !ConnectsAt(c0, n0, pairs, j)
    ensures r.None? ==> forall j :: k <= j < |pairs| ==> !ConnectsAt(c0, n0, pairs, j)
    decreases |pairs| - k
  {
    if k >= |pairs| then None
    else if ConnectsAt(c0, n0, pairs, k) then Some(k)
    else FirstConnectFrom(c0, n0, pairs, k + 1)
  }

  /** What the search from k on should give: the pair that first connects everything;
      otherwise a failed assert if some end is not a box, and nothing if every pair
      was taken without connecting everything. */
  function Expected(c0: Circuits, n0: nat, pairs: seq<JunctionPair>, k: nat): Checked<Option<JunctionPair>> {
    match FirstConnectFrom(c0, n0, pairs, k)
    case Some(j) => Ok(Some(pairs[j]))
    case None => if State(c0, n0, pairs, |pairs|).Abort? then Abort else Ok(None)
  }

  /** Once every box shares one id, later pairs change nothing. */
  lemma {:induction false} ConnectedStays(c0: Circuits, n0: nat, pairs: seq<JunctionPair>, k: nat, t: nat)
    requires k <= t <= |pairs| && State(c0, n0, pairs, k).Ok? && Connected(State(c0, n0, pairs, k).value.0)
    ensures State(c0, n0, pairs, t).Abort? || State(c0, n0, pairs, t) == State(c0, n0, pairs, k)
    decreases t
  {
    if t > k {
      ConnectedStays(c0, n0, pairs, k, t - 1);
      ConnectAllStep(c0, n0, pairs, t - 1);
    }
  }

  /** No pair from k on connects everything when everything is already connected or
      the state at k+1 failed an assert. */
  lemma NoConnectAfter(c0: Circuits, n0: nat, pairs: seq<JunctionPair>, k: nat, j: nat)
    requires k < j < |pairs| && State(c0, n0, pairs, k).Ok?
    requires Connected(State(c0, n0, pairs, k).value.0) || State(c0, n0, pairs, k + 1).Abort?
    ensures !ConnectsAt(c0, n0, pairs, j)
  {
    if Connected(State(c0, n0, pairs, k).value.0) {
      ConnectedStays(c0, n0, pairs, k, j);
    } else {
      ConnectAllAbortStays(c0, n0, pairs, k + 1, j);
    }
  }

  /** A pair that does not connect everything defers to the pairs after it. */
  lemma ExpectedNext(c0: Circuits, n0: nat, pairs: seq<JunctionPair>, k: nat)
    requires k < |pairs| && !ConnectsAt(c0, n0, pairs, k)
    ensures Expected(c0, n0, pairs, k) == Expected(c0, n0, pairs, k + 1)
  {
  }

  /** A failed assert at pair k is what the search from k gives. */
  lemma ExpectedAbort(c0: Circuits, n0: nat, pairs: seq<JunctionPair>, k: nat)
    requires k < |pairs| && State(c0, n0, pairs, k).Ok? && State(c0, n0, pairs, k + 1).Abort?
    ensures Expected(c0, n0, pairs, k) == Abort
  {
    ConnectAllAbortStays(c0, n0, pairs, k + 1, |pairs|);
    forall j | k < j < |pairs|
      ensures !ConnectsAt(c0, n0, pairs, j)
    {
      NoConnectAfter(c0, n0, pairs, k, j);
    }
  }

  /** The loop from pair k on, started in the state the first k pairs build, gives
      the pair that first connects everything, as Expected says. */
  lemma {:induction false} LastPairFromIs(c0: Circuits, n0: nat, pairs: seq<JunctionPair>, k: nat, c: Circuits, count: nat)
    requires k <= |pairs| && State(c0, n0, pairs, k) == Ok((c, count))
    ensures LastPairFrom(c, count, pairs, k) == Expected(c0, n0, pairs, k)
    decreases |pairs| - k
  {
    if k < |pairs| {
      var pr := pairs[k];
      ConnectAllStep(c0, n0, pairs, k);
      if pr.first !in c || pr.second !in c {
        ExpectedAbort(c0, n0, pairs, k);
      } else if c[pr.first] == c[pr.second] {
        assert State(c0, n0, pairs, k + 1) == Ok((c, count));
        ExpectedNext(c0, n0, pairs, k);
        LastPairFromIs(c0, n0, pairs, k + 1, c, count);
      } else {
        var c' := Merge(c, c[pr.first], c[pr.second], count);
        var count': nat := count + 1;
        assert State(c0, n0, pairs, k + 1) == Ok((c', count'));
        if !Connected(c') {
          ExpectedNext(c0, n0, pairs, k);
          LastPairFromIs(c0, n0, pairs, k + 1, c', count');
        } else {
          assert !Connected(c) by {
            assert c[pr.first] != c[pr.second];
          }
        }
      }
    }
  }

  /** get_last_pair_to_fully_connect gives the first pair after whose merge every box
      shares one id, and nothing when the pairs never connect everything. */
  lemma LastPairIsFirstConnection(c0: Circuits, n0: nat, pairs: seq<JunctionPair>)
    ensures LastPairFrom(c0, n0, pairs, 0) == Expected(c0, n0, pairs, 0)
  {
    assert pairs[..0] == [];
    LastPairFromIs(c0, n0, pairs, 0, c0, n0);
  }

  /** The all_of over the map after a merge: every id equals the first box's. */
  method AllShareId(c: Circuits) returns (b: bool)
    requires c != map[]
    ensures b == Connected(c)
  {
    var first :| first in c;
    var checkId := c[first];
    var todo := c.Keys;
    while todo != {}
      invariant todo <= c.Keys
      invariant forall p :: p in c && p !in todo ==> c[p] == checkId
      decreases todo
    {
      var p :| p in todo;
      if c[p] != checkId {
        return false;
      }
      todo := todo - {p};
    }
    return true;
  }

  /** One iteration of get_last_pair_to_fully_connect, on pair k: either the search
      ends here with result, or it goes on from pair k + 1 in the state (c', count'). */
  method TakePair(c: Circuits, count: nat, pairs: seq<JunctionPair>, k: nat)
    returns (done: bool, result: Checked<Option<JunctionPair>>, c': Circuits, count': nat)
    requires k < |pairs|
    ensures done ==> LastPairFrom(c, count, pairs, k) == result
    ensures !done ==> LastPairFrom(c, count, pairs, k) == LastPairFrom(c', count', pairs, k + 1)
  {
    var pr := pairs[k];
    c', count' := c, count;
    if pr.first !in c || pr.second !in c {
      return true, Abort, c', count';
    }
    var firstId, secondId := c[pr.first], c[pr.second];
    if firstId == secondId {
      return false, Ok(None), c', count';
    }
    c' := Relabel(c, firstId, secondId, count);
    count' := count + 1;
    assert pr.first in c';
    var connected := AllShareId(c');
    if connected {
      return true, Ok(Some(pr)), c', count';
    }
    return false, Ok(None), c', count';
  }

  /** get_last_pair_to_fully_connect: an id per box, then the pairs in order until a
      merge connects everything. */
  method GetLastPair(positions: seq<Vector3>, pairs: seq<JunctionPair>) returns (result: Checked<Option<JunctionPair>>)
    ensures result == LastPairFrom(InitialCircuits(positions), |positions|, pairs, 0)
  {
    var circuits, count := InitCircuits(positions);
    ghost var init := circuits;
    for k := 0 to |pairs|
      invariant LastPairFrom(init, |positions|, pairs, 0) == LastPairFrom(circuits, count, pairs, k)
    {
      var done;
      done, result, circuits, count := TakePair(circuits, count, pairs, k);
      if done {
        return;
      }
    }
    return Ok(None);
  }

  /** The last pair solve looks for, from the text. */
  function LastPair(data: string): Checked<Option<JunctionPair>> {
    match PositionsFrom(data, 0)
    case Abort => Abort
    case Ok(positions) =>
      match SortedPairs(positions)
      case Abort => Abort
      case Ok(pairs) => LastPairFrom(InitialCircuits(positions), |positions|, pairs, 0)
  }

  function XProduct(pr: JunctionPair): nat {
    pr.first.x * pr.second.x
  }

  /** solve: the product of the x coordinates of the pair that connects everything,
      wrapping as uint64_t does; no such pair fails the assert. */
  method Solve(data: string) returns (result: Checked<nat>)
    ensures result == match LastPair(data)
      case Ok(Some(pr)) => Ok(Wrap64(XProduct(pr)))
      case _ => Abort
  {
    var positions := ParsePositions(data);
    if positions.Abort? {
      return Abort;
    }
    var pairs := CreateSortedPairs(positions.value);
    if pairs.Abort? {
      return Abort;
    }
    var last := GetLastPair(positions.value, pairs.value);
    if last.Abort? || last.value.None? {
      return Abort;
    }
    var pr := last.value.value;
    return Ok(Wrap64(XProduct(pr)));
  }
}
