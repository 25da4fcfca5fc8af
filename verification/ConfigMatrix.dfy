/** Distance matrices in the static configuration: doubles when they are written, ints when read. */
module ConfigMatrix {
  import opened Graph
  import opened Wrappers

  /** A number is a double; Inf is DBL_MAX. */
  type Matrix = seq<seq<Dist>>

  const INT_MAX := 2147483647

  /** `Json::Value::asInt`: drops the fraction, and throws outside the range of int. */
  function AsInt(d: Dist): (v: Option<int>)
    ensures v.Some? <==> InIntRange(d)
    ensures v.Some? ==> IsTruncation(d.length, v.value)
  {
    if d.Fin? && -(INT_MAX as real) - 1.0 <= d.length <= INT_MAX as real then
      Some(if d.length >= 0.0 then d.length.Floor else -((-d.length).Floor))
    else None
  }

  predicate InIntRange(d: Dist) {
    d.Fin? && -2147483648.0 <= d.length <= 2147483647.0
  }

  /** v is the integer next to x on the side of zero. */
  predicate IsTruncation(x: real, v: int) {
    if x >= 0.0 then v as real <= x < v as real + 1.0 else v as real - 1.0 < x <= v as real
  }

  ghost predicate ReadableRow(row: seq<Dist>) {
    forall j | 0 <= j < |row| :: InIntRange(row[j])
  }

  /** Every number of the matrix is in the range of int. */
  ghost predicate Readable(m: Matrix) {
    forall i | 0 <= i < |m| :: ReadableRow(m[i])
  }

  ghost predicate IsTruncatedRow(row: seq<Dist>, ints: seq<int>) {
    |ints| == |row| && forall j | 0 <= j < |row| :: row[j].Fin? && IsTruncation(row[j].length, ints[j])
  }

  /** `convert_from_json<std::vector<int>>`; None is the exception of `asInt`. */
  method ConvertRow(row: seq<Dist>) returns (r: Option<seq<int>>)
    ensures r.Some? <==> ReadableRow(row)
    ensures r.Some? ==> IsTruncatedRow(row, r.value)
  {
    var ints := [];
    for j := 0 to |row|
      invariant IsTruncatedRow(row[..j], ints) && ReadableRow(row[..j])
    {
      var v := AsInt(row[j]);
      if v.None? {
        return None;
      }
      ints := ints + [v.value];
    }
    assert row[..|row|] == row;
    return Some(ints);
  }

  /** `convert_from_json<std::vector<std::vector<int>>>`: one number out of range spoils the matrix. */
  method Convert(m: Matrix) returns (r: Option<seq<seq<int>>>)
    ensures r.Some? <==> Readable(m)
    ensures r.Some? ==> |r.value| == |m| && forall i | 0 <= i < |m| :: IsTruncatedRow(m[i], r.value[i])
  {
    var ints := [];
    for i := 0 to |m|
      invariant |ints| == i
      invariant forall k | 0 <= k < i :: ReadableRow(m[k]) && IsTruncatedRow(m[k], ints[k])
    {
      var row := ConvertRow(m[i]);
      if row.None? {
        return None;
      }
      ints := ints + [row.value];
    }
    return Some(ints);
  }

  /** What both `get_waypoint_dist` and `get_station_dist` do with a matrix: the entry, or the error
      value when the matrix cannot be read or has no such entry. */
  ghost function ValueAt(m: Matrix, row: int, col: int, error: int): int {
    if Readable(m) && 0 <= row < |m| && 0 <= col < |m[row]| then
      assert ReadableRow(m[row]);
      AsInt(m[row][col]).value
    else error
  }

  lemma SameTruncation(x: real, v: int, u: int)
    requires IsTruncation(x, v) && IsTruncation(x, u)
    ensures v == u
  {
  }

  method LookUp(m: Matrix, row: int, col: int, error: int) returns (d: int)
    ensures d == ValueAt(m, row, col, error)
  {
    var ints := Convert(m);
    if ints.None? || !(0 <= row < |m|) || !(0 <= col < |m[row]|) {
      return error;
    }
    assert IsTruncatedRow(m[row], ints.value[row]) && ReadableRow(m[row]);
    SameTruncation(m[row][col].length, ints.value[row][col], AsInt(m[row][col]).value);
    return ints.value[row][col];
  }
}
