/**
 * Flat records as both halves of the system see them: one student row is
 * a map from column name to a scalar value (a pandas row on the server, a
 * JSON object in the browser). `Less` is JavaScript's `a[key] < b[key]`.
 */
module Records {
  import opened Wrappers
  import opened Text

  /** JSON scalars: integers and floating-point numbers are both JavaScript numbers. */
  datatype Value = Int(i: int) | Real(x: real) | Str(s: string)

  type Record = map<string, Value>

  /** `r[key]`, with `None` for JavaScript's `undefined`. */
  function Field(r: Record, key: string): (v: Option<Value>)
    ensures v.Some? <==> key in r
    ensures v.Some? ==> v.value == r[key]
  {
    if key in r then Some(r[key]) else None
  }

  function Magnitude(v: Value): real
    requires !v.Str?
  {
    if v.Int? then v.i as real else v.x
  }

  /**
   * JavaScript's `a < b` on two field reads: numbers compare numerically,
   * strings lexicographically; `undefined` and a number against a string
   * compare false both ways.
   */
  predicate Less(a: Option<Value>, b: Option<Value>)
    ensures Less(a, b) ==> Comparable(a, b)
    ensures a.None? || b.None? ==> !Less(a, b)
  {
    && a.Some? && b.Some?
    && if a.value.Str? && b.value.Str? then LexLess(a.value.s, b.value.s)
       else !a.value.Str? && !b.value.Str? && Magnitude(a.value) < Magnitude(b.value)
  }

  lemma LessIrreflexive(a: Option<Value>)
    ensures !Less(a, a)
  {
    if a.Some? && a.value.Str? { LexLessIrreflexive(a.value.s); }
  }

  lemma LessAsymmetric(a: Option<Value>, b: Option<Value>)
    ensures !(Less(a, b) && Less(b, a))
  {
    if a.Some? && b.Some? && a.value.Str? && b.value.Str? {
      LexLessAsymmetric(a.value.s, b.value.s);
    }
  }

  /** Both reads are present and of the same kind, so `<` orders them. */
  predicate Comparable(a: Option<Value>, b: Option<Value>) {
    a.Some? && b.Some? && a.value.Str? == b.value.Str?
  }

  /** "Not greater" is transitive on comparable reads. */
  lemma NotLessTransitive(a: Option<Value>, b: Option<Value>, c: Option<Value>)
    requires Comparable(a, b) && Comparable(b, c)
    requires !Less(b, a) && !Less(c, b)
    ensures !Less(c, a)
  {
    if a.value.Str? {
      var s, t, u := a.value.s, b.value.s, c.value.s;
      if s != t { LexLessTotal(s, t); }
      if t != u { LexLessTotal(t, u); }
      if LexLess(u, s) {
        if s == t { LexLessAsymmetric(t, u); }
        else if t == u { LexLessAsymmetric(s, t); }
        else { LexLessTransitive(s, t, u); LexLessAsymmetric(s, u); }
      }
    }
  }

  /** Two records that read the same under every key are the same record. */
  lemma FieldsDetermineRecord(a: Record, b: Record)
    requires forall k :: Field(a, k) == Field(b, k)
    ensures a == b
  {
    assert a.Keys == b.Keys by {
      forall k ensures k in a <==> k in b { assert Field(a, k) == Field(b, k); }
    }
    forall k | k in a ensures a[k] == b[k] { assert Field(a, k) == Field(b, k); }
  }

  /** The selector `r => r[key] === v`. */
  function FieldIs(key: string, v: Value): Record -> bool {
    r => Field(r, key) == Some(v)
  }
}
