/** Extended reals: the values a bound or an objective cutoff may take. */
module Extended {

  datatype Ext = NegInf | Fin(v: real) | PosInf

  predicate Le(a: Ext, b: Ext) {
    match (a, b)
    case (NegInf, _) => true
    case (_, PosInf) => true
    case (Fin(x), Fin(y)) => x <= y
    case _ => false
  }

  predicate Lt(a: Ext, b: Ext) {
    !Le(b, a)
  }

  function Min(a: Ext, b: Ext): Ext {
    if Le(a, b) then a else b
  }

  function Max(a: Ext, b: Ext): Ext {
    if Le(a, b) then b else a
  }

  /** Shift by a finite amount; infinities absorb it. */
  function Shift(a: Ext, d: real): Ext {
    if a.Fin? then Fin(a.v + d) else a
  }

  function MinOf(s: seq<Ext>): (m: Ext)
    ensures forall k :: 0 <= k < |s| ==> Le(m, s[k])
    ensures m == PosInf || m in s
  {
    if s == [] then PosInf else Min(s[0], MinOf(s[1..]))
  }

  datatype Option<+T> = None | Some(value: T)
}
