/** The values the ledger stores: a movement, the derived balances and the
    `{ movimientos, saldos }` record that the store holds, persists and exports. */
module Modelo {

  datatype Option<T> = None | Some(value: T)

  /** One ledger entry. `fecha` is whatever string the caller stored: the
      store does not force it into one shape. `cantidad` is an exact real;
      floating point is not modelled. */
  datatype Movimiento = Movimiento(
    id: string,
    fecha: string,
    asunto: string,
    tipo: string,
    cantidad: real)

  /** The derived balances record `{ banco, cash, total }`. */
  datatype Saldos = Saldos(banco: real, cash: real, total: real)

  /** The whole stored record `{ movimientos, saldos }`. */
  datatype Datos = Datos(movimientos: seq<Movimiento>, saldos: Saldos)

  const SaldosIniciales := Saldos(0.0, 0.0, 0.0)

  /** True when no movement of `ms` carries the identifier `id`. */
  predicate IdLibre(ms: seq<Movimiento>, id: string)
  {
    forall k :: 0 <= k < |ms| ==> ms[k].id != id
  }

  /** `array.filter(p)` on a sequence: the elements satisfying `p`, in order
      (the order is `FiltrarConcat`, the multiplicities `FiltrarCuenta`). */
  function Filtrar<T(!new)>(s: seq<T>, p: T -> bool): (r: seq<T>)
    ensures |r| <= |s|
    ensures forall k :: 0 <= k < |r| ==> p(r[k])
    ensures multiset(r) <= multiset(s)
    ensures forall x :: x in s && p(x) ==> x in r
  {
    if s == [] then []
    else
      var resto := Filtrar(s[1..], p);
      assert s == [s[0]] + s[1..];
      if p(s[0]) then [s[0]] + resto else resto
  }

  /** Each element that passes is kept exactly as often as it occurs, and an
      element that fails is not kept at all. */
  lemma {:induction false} FiltrarCuenta<T(!new)>(s: seq<T>, p: T -> bool, x: T)
    ensures multiset(Filtrar(s, p))[x] == if p(x) then multiset(s)[x] else 0
  {
    if s != [] {
      FiltrarCuenta(s[1..], p, x);
      assert s == [s[0]] + s[1..];
    }
  }

  /** `FiltrarCuenta` for every element at once: the filtered multiset is the
      original one restricted to the elements that pass. */
  lemma FiltrarCuentas<T(!new)>(s: seq<T>, p: T -> bool)
    ensures forall x :: multiset(Filtrar(s, p))[x] == if p(x) then multiset(s)[x] else 0
  {
    forall x {
      FiltrarCuenta(s, p, x);
    }
  }

  /** Filtering distributes over concatenation, so the survivors keep their
      relative order. */
  lemma {:induction false} FiltrarConcat<T(!new)>(a: seq<T>, b: seq<T>, p: T -> bool)
    ensures Filtrar(a + b, p) == Filtrar(a, p) + Filtrar(b, p)
  {
    if a == [] {
      assert a + b == b;
    } else {
      assert (a + b)[1..] == a[1..] + b;
      FiltrarConcat(a[1..], b, p);
    }
  }

  /** Two filters in a row keep exactly what their conjunction keeps. */
  lemma {:induction false} FiltrarDosVeces<T(!new)>(s: seq<T>, p: T -> bool, q: T -> bool, pq: T -> bool)
    requires forall k :: 0 <= k < |s| ==> pq(s[k]) == (p(s[k]) && q(s[k]))
    ensures Filtrar(Filtrar(s, p), q) == Filtrar(s, pq)
  {
    if s != [] {
      FiltrarDosVeces(s[1..], p, q, pq);
    }
  }

  /** A filter that every element passes changes nothing. */
  lemma {:induction false} FiltrarTodos<T(!new)>(s: seq<T>, p: T -> bool)
    requires forall k :: 0 <= k < |s| ==> p(s[k])
    ensures Filtrar(s, p) == s
  {
    if s != [] {
      FiltrarTodos(s[1..], p);
      assert s == [s[0]] + s[1..];
    }
  }

  /** Filters that agree on every element keep the same elements. */
  lemma {:induction false} FiltrarIgual<T(!new)>(s: seq<T>, p: T -> bool, q: T -> bool)
    requires forall k :: 0 <= k < |s| ==> p(s[k]) == q(s[k])
    ensures Filtrar(s, p) == Filtrar(s, q)
  {
    if s != [] {
      FiltrarIgual(s[1..], p, q);
    }
  }
}
