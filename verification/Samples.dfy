/** Simulation traces: time-ordered samples of an observed expression, which repeat its values. */
module Samples {

  datatype Sample = Sample(time: real, value: int)

  function Values(samples: seq<Sample>): (values: seq<int>)
    ensures |values| == |samples|
    ensures forall i | 0 <= i < |samples| :: values[i] == samples[i].value
  {
    seq(|samples|, i requires 0 <= i < |samples| => samples[i].value)
  }

  /** The values with each block of equal neighbours reduced to one. */
  ghost function Destutter(values: seq<int>): (reduced: seq<int>)
    ensures |reduced| <= |values|
    ensures (reduced == [] <==> values == []) && (values != [] ==> reduced[0] == values[0])
  {
    if |values| <= 1 then values
    else if values[0] == values[1] then Destutter(values[1..])
    else [values[0]] + Destutter(values[1..])
  }

  /** The samples show the history of the expression: the same values in the same order. */
  ghost predicate IsTraceOf(samples: seq<Sample>, history: seq<int>) {
    Destutter(Values(samples)) == Destutter(history)
  }

  ghost predicate NoRepeats(values: seq<int>) {
    forall i | 0 <= i < |values| - 1 :: values[i] != values[i + 1]
  }

  lemma {:induction false} DestutterHasNoRepeats(values: seq<int>)
    ensures NoRepeats(Destutter(values))
    decreases |values|
  {
    if |values| > 1 {
      DestutterHasNoRepeats(values[1..]);
      var rest := Destutter(values[1..]);
      if values[0] != values[1] {
        forall i | 0 <= i < |rest|
          ensures ([values[0]] + rest)[i] != ([values[0]] + rest)[i + 1]
        {
          if i > 0 {
            assert rest[i - 1] != rest[i - 1 + 1];
          }
        }
      }
    }
  }

  lemma {:induction false} DestutterMembers(values: seq<int>, v: int)
    ensures v in Destutter(values) <==> v in values
    decreases |values|
  {
    if |values| > 1 {
      DestutterMembers(values[1..], v);
      assert values == [values[0]] + values[1..];
      if values[0] == values[1] {
        assert values[1..][0] == values[0];
      }
    }
  }

  lemma {:induction false} DestutterIdentity(values: seq<int>)
    requires NoRepeats(values)
    ensures Destutter(values) == values
    decreases |values|
  {
    if |values| > 1 {
      assert values[0] != values[0 + 1];
      forall i | 0 <= i < |values[1..]| - 1
        ensures values[1..][i] != values[1..][i + 1]
      {
        assert values[i + 1] != values[i + 1 + 1];
      }
      DestutterIdentity(values[1..]);
    }
  }

  lemma {:induction false} DestutterAppend(values: seq<int>, v: int)
    requires values != []
    ensures Destutter(values + [v]) ==
            if values[|values| - 1] == v then Destutter(values) else Destutter(values) + [v]
    decreases |values|
  {
    if |values| > 1 {
      assert (values + [v])[1..] == values[1..] + [v];
      DestutterAppend(values[1..], v);
    } else {
      assert (values + [v])[1..] == [v];
    }
  }

  /** Repeating any sample changes nothing. */
  lemma {:induction false} RepeatingIsHarmless(values: seq<int>, k: nat)
    requires k < |values|
    ensures Destutter(values[..k + 1] + values[k..]) == Destutter(values)
    decreases k
  {
    var longer := values[..k + 1] + values[k..];
    if k == 0 {
      assert longer[1..] == values;
    } else {
      assert longer[1..] == values[1..][..k] + values[1..][k - 1..];
      RepeatingIsHarmless(values[1..], k - 1);
    }
  }

  /** An injective renaming of the values commutes with the reduction. */
  lemma {:induction false} DestutterRenamed(values: seq<int>, f: int -> int)
    requires forall a, b | a in values && b in values && f(a) == f(b) :: a == b
    ensures Destutter(Renamed(values, f)) == Renamed(Destutter(values), f)
    decreases |values|
  {
    if |values| > 1 {
      assert Renamed(values, f)[1..] == Renamed(values[1..], f);
      DestutterRenamed(values[1..], f);
      assert values[0] in values && values[1] in values;
    }
  }

  ghost function Renamed(values: seq<int>, f: int -> int): (renamed: seq<int>)
    ensures |renamed| == |values|
    ensures forall i | 0 <= i < |values| :: renamed[i] == f(values[i])
  {
    seq(|values|, i requires 0 <= i < |values| => f(values[i]))
  }

  /** The value after a block of `last`: where the reduction goes on. */
  lemma {:induction false} DestutterAfter(last: int, values: seq<int>, c: seq<int>)
    requires Destutter([last] + values) == [last] + c
    ensures c == [] ==> forall v <- values :: v == last
    ensures c != [] ==> values != [] && c[0] != last
                        && Destutter(values) == if values[0] == last then [last] + c else c
    decreases |values|
  {
    assert ([last] + values)[1..] == values;
    DestutterHasNoRepeats([last] + values);
    if c != [] {
      assert ([last] + c)[0] != ([last] + c)[0 + 1];
    }
    if values != [] {
      if values[0] == last {
        assert values == [last] + values[1..];
        DestutterAfter(last, values[1..], c);
      } else {
        assert Destutter([last] + values) == [last] + Destutter(values);
        assert Destutter(values) == ([last] + Destutter(values))[1..] == c;
      }
    }
  }

  /** The value after a step is the last one of the list, or the next one. */
  ghost predicate Extends(longer: seq<int>, values: seq<int>, v: int) {
    longer == values + [v] || (longer == values && values != [] && values[|values| - 1] == v)
  }

  /** The history goes through these values, up to repetitions, and has reached the last of them. */
  ghost predicate GoesThrough(history: seq<int>, values: seq<int>) {
    && history != [] && values != [] && history[|history| - 1] == values[|values| - 1]
    && Destutter(history) == Destutter(values)
  }

  lemma GoesOn(history: seq<int>, values: seq<int>, longer: seq<int>, v: int)
    requires GoesThrough(history, values) && Extends(longer, values, v)
    ensures GoesThrough(history + [v], longer)
  {
    DestutterAppend(history, v);
    if longer == values + [v] {
      DestutterAppend(values, v);
    }
  }

  lemma NoRepeatsBehind(first: int, values: seq<int>)
    requires NoRepeats(values) && (values != [] ==> values[0] != first)
    ensures NoRepeats([first] + values) && Destutter([first] + values) == [first] + values
  {
    var all := [first] + values;
    forall i | 0 <= i < |all| - 1
      ensures all[i] != all[i + 1]
    {
      assert i > 0 ==> values[i - 1] != values[i - 1 + 1];
    }
    DestutterIdentity(all);
  }
}
