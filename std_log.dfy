/**
 * The key/value formatting of the standard-library logger in
 * internal/log/stdlog.go: variadic arguments are paired into a map, keys at
 * even positions and values at odd ones.
 */
module StdLog {

  /** A logged argument. Go passes `interface{}`; a string or any other value. */
  datatype Value = Text(text: string) | Other(token: nat)

  /** The value recorded against a trailing key that has no value. */
  const NonValue: Value := Text("non-value")

  /** What `appendLevel` hands to `log.Println`: the level tag, then the map. */
  datatype Logged = Level(tag: string) | Fields(pairs: map<Value, Value>)

  /** The map after the first `p` pairs have been stored, later pairs overwriting earlier ones. */
  function Paired(v: seq<Value>, p: nat): map<Value, Value>
    requires 2 * p <= |v|
  {
    if p == 0 then map[] else Paired(v, p - 1)[v[2 * (p - 1)] := v[2 * (p - 1) + 1]]
  }

  /** `decorate(v...)` as a value: every pair, then the dangling key of an odd-length list. */
  function Decorated(v: seq<Value>): map<Value, Value> {
    if |v| % 2 != 0 then Paired(v, |v| / 2)[v[|v| - 1] := NonValue] else Paired(v, |v| / 2)
  }

  method Decorate(v: seq<Value>) returns (pairs: map<Value, Value>)
    ensures pairs == Decorated(v)
  {
    pairs := map[];
    var l := |v|;
    var count := l / 2;
    var p := 0;
    while p < count
      invariant 0 <= p <= count
      invariant pairs == Paired(v, p)
    {
      pairs := pairs[v[p * 2] := v[p * 2 + 1]];
      p := p + 1;
    }
    if l % 2 != 0 {
      pairs := pairs[v[l - 1] := NonValue];
    }
  }

  method AppendLevel(level: string, v: seq<Value>) returns (withLevel: seq<Logged>)
    ensures |withLevel| == 2
    ensures withLevel[0] == Level(level) && withLevel[1] == Fields(Decorated(v))
  {
    withLevel := [];
    withLevel := withLevel + [Level(level)];
    var pairs := Decorate(v);
    withLevel := withLevel + [Fields(pairs)];
  }

  /** The keys of the first `p` pairs are the values at the even positions below `2p`. */
  lemma {:induction false} PairedKeys(v: seq<Value>, p: nat)
    requires 2 * p <= |v|
    ensures forall k :: k in Paired(v, p) <==> exists i | 0 <= i < p :: v[2 * i] == k
  {
    if p > 0 {
      PairedKeys(v, p - 1);
      forall k ensures k in Paired(v, p) <==> exists i | 0 <= i < p :: v[2 * i] == k {
        if k == v[2 * (p - 1)] {
          assert v[2 * (p - 1)] == k;
        }
      }
    }
  }

  /** A key's value is the value of its last pair. */
  lemma {:induction false} PairedLastWins(v: seq<Value>, p: nat, i: nat)
    requires 2 * p <= |v| && i < p
    requires forall j | i < j < p :: v[2 * j] != v[2 * i]
    ensures v[2 * i] in Paired(v, p) && Paired(v, p)[v[2 * i]] == v[2 * i + 1]
  {
    if i < p - 1 {
      PairedLastWins(v, p - 1, i);
      assert v[2 * (p - 1)] != v[2 * i];
    }
  }

  /**
   * `decorate` keys every even-position argument: the map's keys are exactly
   * the arguments at even positions, and the dangling last argument of an
   * odd-length list maps to "non-value".
   */
  lemma DecoratedKeys(v: seq<Value>)
    ensures forall k :: k in Decorated(v) <==> exists i | 0 <= i < |v| && i % 2 == 0 :: v[i] == k
    ensures |v| % 2 != 0 ==> Decorated(v)[v[|v| - 1]] == NonValue
  {
    PairedKeys(v, |v| / 2);
    forall k ensures k in Decorated(v) <==> exists i | 0 <= i < |v| && i % 2 == 0 :: v[i] == k {
      if exists i | 0 <= i < |v| && i % 2 == 0 :: v[i] == k {
        var i :| 0 <= i < |v| && i % 2 == 0 && v[i] == k;
        if i == |v| - 1 {
        } else {
          assert v[2 * (i / 2)] == k;
        }
      }
      if k in Paired(v, |v| / 2) {
        var i :| 0 <= i < |v| / 2 && v[2 * i] == k;
        assert 2 * i < |v| && (2 * i) % 2 == 0;
      }
    }
  }

  /**
   * Each key maps to the value that follows its last occurrence as a key,
   * unless it is also the dangling last argument, which maps to "non-value".
   */
  lemma DecoratedValue(v: seq<Value>, i: nat)
    requires i + 1 < |v| && i % 2 == 0
    requires forall j | i < j < |v| && j % 2 == 0 :: v[j] != v[i]
    ensures v[i] in Decorated(v) && Decorated(v)[v[i]] == v[i + 1]
  {
    var p := |v| / 2;
    forall j | i / 2 < j < p ensures v[2 * j] != v[2 * (i / 2)] {
      assert 2 * j > i && (2 * j) % 2 == 0;
    }
    PairedLastWins(v, p, i / 2);
    if |v| % 2 != 0 {
      assert v[|v| - 1] != v[i];
    }
  }
}
