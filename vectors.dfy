/** The math helpers of the edit route: plain 2-D vector arithmetic, the
    centre of a size, and the integer parsing applied to every parsed JSON
    record. Numbers are modelled as exact reals. */
module Vectors {

  /** A value that may be absent: a state field still null, or a vector
      whose parsed components are NaN. */
  datatype Option<T> = None | Some(value: T)

  datatype Vec = Vec(x: real, y: real)

  datatype Size = Size(width: real, height: real)

  /** The integer part of r, rounded toward zero (`parseInt` of a number). */
  function Trunc(r: real): (n: int)
    ensures 0.0 <= r ==> n as real <= r < n as real + 1.0
    ensures r < 0.0 ==> n as real - 1.0 < r <= n as real
  {
    if r >= 0.0 then r.Floor else -((-r).Floor)
  }

  /** Truncating an integer changes nothing, so truncating twice is
      truncating once. */
  lemma {:induction false} TruncIdempotent(r: real)
    ensures Trunc(Trunc(r) as real) == Trunc(r)
  {
    var n := Trunc(r);
    assert (n as real).Floor == n;
    assert -((-(n as real)).Floor) == n by {
      assert -(n as real) == (-n) as real;
    }
  }

  /** The centre of a rectangle of the given size; kept fractional. */
  function GetCenter(s: Size): (c: Vec)
    ensures c.x - 0.0 == s.width - c.x && c.y - 0.0 == s.height - c.y
  {
    Vec(s.width / 2.0, s.height / 2.0)
  }

  /** `a` displaced by `d`. */
  function AddVectors(a: Vec, d: Vec): (r: Vec)
    ensures r.x - a.x == d.x && r.y - a.y == d.y
  {
    Vec(a.x + d.x, a.y + d.y)
  }

  /** The displacement that carries `b` onto `a`: adding `b` back gives `a`. */
  function SubtractVectors(a: Vec, b: Vec): (r: Vec)
    ensures AddVectors(r, b) == a
  {
    Vec(a.x - b.x, a.y - b.y)
  }

  /** A parsed JSON record: field names mapped to numbers. */
  class JsObject {
    var fields: map<string, real>

    constructor (fields: map<string, real>)
      ensures this.fields == fields
    {
      this.fields := fields;
    }
  }

  /** Every field of `m` truncated toward zero. */
  function TruncFields(m: map<string, real>): (r: map<string, real>)
    ensures r.Keys == m.Keys
    ensures forall k :: k in r ==> r[k] == Trunc(m[k]) as real
  {
    map k | k in m :: Trunc(m[k]) as real
  }

  /** Overwrite every field of `obj` with its value truncated toward zero,
      one key at a time, and hand back the same object. */
  method ObjValsToInts(obj: JsObject) returns (r: JsObject)
    modifies obj
    ensures r == obj
    ensures obj.fields == TruncFields(old(obj.fields))
  {
    ghost var orig := obj.fields;
    var todo := obj.fields.Keys;
    while todo != {}
      invariant todo <= orig.Keys && obj.fields.Keys == orig.Keys
      invariant forall k :: k in todo ==> obj.fields[k] == orig[k]
      invariant forall k :: k in orig && k !in todo ==> obj.fields[k] == Trunc(orig[k]) as real
      decreases todo
    {
      var key :| key in todo;
      obj.fields := obj.fields[key := Trunc(obj.fields[key]) as real];
      todo := todo - {key};
    }
    r := obj;
  }

  /** Truncating the fields of a record already truncated changes nothing. */
  lemma TruncFieldsIdempotent(m: map<string, real>)
    ensures TruncFields(TruncFields(m)) == TruncFields(m)
  {
    forall k | k in m ensures TruncFields(TruncFields(m))[k] == TruncFields(m)[k] {
      TruncIdempotent(m[k]);
    }
  }
}
