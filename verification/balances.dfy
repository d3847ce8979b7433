/** The balance computation of `calcularSaldos`: per-account sums of the
    amounts, rounded to two decimals the way `Math.round(x * 100) / 100`
    rounds (halves go up). */
module Balances {
  import opened Modelo

  const BANCO := "BANCO"
  const CASH := "CASH"

  /** `Math.round(x * 100) / 100` on exact reals. */
  function Round2(x: real): (r: real)
    ensures EnCentimos(r)
    ensures r - 0.005 <= x < r + 0.005
  {
    var n := (x * 100.0 + 0.5).Floor;
    assert (n as real) / 100.0 * 100.0 == n as real;
    (n as real) / 100.0
  }

  /** `x` is a whole number of cents. */
  predicate EnCentimos(x: real)
  {
    (x * 100.0).Floor as real == x * 100.0
  }

  /** Rounding leaves a whole number of cents alone. */
  lemma Round2Centimos(x: real)
    requires EnCentimos(x)
    ensures Round2(x) == x
  {
    var n := (x * 100.0).Floor;
    assert (x * 100.0 + 0.5).Floor == n;
  }

  /** `movimientos.filter(m => m.tipo === tipo)`: only movements of the
      account; `DelTipoCuenta` says each one is kept as often as it occurs,
      `DelTipoConcat` that they keep their order. */
  function DelTipo(ms: seq<Movimiento>, tipo: string): (r: seq<Movimiento>)
    ensures forall k :: 0 <= k < |r| ==> r[k].tipo == tipo
    ensures forall m :: m in r ==> m in ms
  {
    if ms == [] then []
    else
      var ini := DelTipo(ms[..|ms| - 1], tipo);
      if ms[|ms| - 1].tipo == tipo then ini + [ms[|ms| - 1]] else ini
  }

  /** Every movement of the account is kept exactly as often as it occurs,
      and no movement of another account is kept. */
  lemma {:induction false} DelTipoCuenta(ms: seq<Movimiento>, tipo: string, m: Movimiento)
    ensures multiset(DelTipo(ms, tipo))[m] == if m.tipo == tipo then multiset(ms)[m] else 0
  {
    if ms != [] {
      DelTipoCuenta(ms[..|ms| - 1], tipo, m);
      assert ms == ms[..|ms| - 1] + [ms[|ms| - 1]];
    }
  }

  /** `reduce((sum, mov) => sum + mov.cantidad, 0)`: a left fold. */
  function SumaCantidades(ms: seq<Movimiento>): (r: real)
    ensures ms == [] ==> r == 0.0
    ensures |ms| == 1 ==> r == ms[0].cantidad
  {
    if ms == [] then 0.0 else SumaCantidades(ms[..|ms| - 1]) + ms[|ms| - 1].cantidad
  }

  /** The unrounded sum of the amounts of the movements of one account. */
  function SumaTipo(ms: seq<Movimiento>, tipo: string): real
  {
    SumaCantidades(DelTipo(ms, tipo))
  }

  /** The balances record that `calcularSaldos` derives from a movement list:
      each account rounded on its own, the total rounded from the two
      UNROUNDED account sums. */
  function SaldosDe(ms: seq<Movimiento>): (s: Saldos)
    ensures s.banco == Round2(SumaTipo(ms, BANCO))
    ensures s.cash == Round2(SumaTipo(ms, CASH))
    ensures s.total == Round2(SumaTipo(ms, BANCO) + SumaTipo(ms, CASH))
  {
    var banco := SumaTipo(ms, BANCO);
    var cash := SumaTipo(ms, CASH);
    Saldos(Round2(banco), Round2(cash), Round2(banco + cash))
  }

  lemma {:induction false} DelTipoConcat(a: seq<Movimiento>, b: seq<Movimiento>, tipo: string)
    ensures DelTipo(a + b, tipo) == DelTipo(a, tipo) + DelTipo(b, tipo)
  {
    if b == [] {
      assert a + b == a;
    } else {
      var b' := b[..|b| - 1];
      assert (a + b)[..|a + b| - 1] == a + b';
      assert (a + b)[|a + b| - 1] == b[|b| - 1];
      DelTipoConcat(a, b', tipo);
    }
  }

  /** The sum is additive over concatenated lists; with the empty and
      one-movement cases this fixes it for every list. */
  lemma {:induction false} SumaConcat(a: seq<Movimiento>, b: seq<Movimiento>)
    ensures SumaCantidades(a + b) == SumaCantidades(a) + SumaCantidades(b)
  {
    if b == [] {
      assert a + b == a;
    } else {
      var b' := b[..|b| - 1];
      assert (a + b)[..|a + b| - 1] == a + b';
      assert (a + b)[|a + b| - 1] == b[|b| - 1];
      SumaConcat(a, b');
    }
  }

  /** An account sum is additive over concatenated lists. */
  lemma SumaTipoConcat(a: seq<Movimiento>, b: seq<Movimiento>, tipo: string)
    ensures SumaTipo(a + b, tipo) == SumaTipo(a, tipo) + SumaTipo(b, tipo)
  {
    DelTipoConcat(a, b, tipo);
    SumaConcat(DelTipo(a, tipo), DelTipo(b, tipo));
  }

  /** Appending a movement adds its amount to the sum of its own account and
      to no other. */
  lemma SumaTipoAnadir(ms: seq<Movimiento>, m: Movimiento, tipo: string)
    ensures SumaTipo(ms + [m], tipo) == SumaTipo(ms, tipo) + (if m.tipo == tipo then m.cantidad else 0.0)
  {
    SumaTipoConcat(ms, [m], tipo);
    assert DelTipo([m], tipo) == (if m.tipo == tipo then [m] else []) by {
      assert [m][..0] == [];
    }
    assert SumaCantidades([m]) == m.cantidad by {
      assert [m][..0] == [];
    }
  }

  /** A movement of any account other than BANCO and CASH leaves the
      balances as they were. */
  lemma OtrosTiposIgnorados(ms: seq<Movimiento>, m: Movimiento)
    requires m.tipo != BANCO && m.tipo != CASH
    ensures SaldosDe(ms + [m]) == SaldosDe(ms)
  {
    SumaTipoAnadir(ms, m, BANCO);
    SumaTipoAnadir(ms, m, CASH);
  }

  /** `m` belongs to one of the two accounts the balances track. */
  predicate CuentaConocida(m: Movimiento)
  {
    m.tipo == BANCO || m.tipo == CASH
  }

  /** Only BANCO and CASH movements matter: the unrounded sum of either
      account is the same over the BANCO and CASH movements alone. */
  lemma {:induction false} SumasSoloBancoYCash(ms: seq<Movimiento>, tipo: string)
    requires tipo == BANCO || tipo == CASH
    ensures SumaTipo(Filtrar(ms, CuentaConocida), tipo) == SumaTipo(ms, tipo)
  {
    if ms != [] {
      var m := ms[0];
      var resto := ms[1..];
      assert ms == [m] + resto;
      SumasSoloBancoYCash(resto, tipo);
      SumaTipoConcat([m], resto, tipo);
      var f := Filtrar(resto, CuentaConocida);
      if CuentaConocida(m) {
        SumaTipoConcat([m], f, tipo);
      } else {
        SumaTipoAnadir([], m, tipo);
        assert [] + [m] == [m];
      }
    }
  }

  /** Hence the balances ignore every movement of another account. */
  lemma SoloCuentanBancoYCash(ms: seq<Movimiento>)
    ensures SaldosDe(ms) == SaldosDe(Filtrar(ms, CuentaConocida))
  {
    var f := Filtrar(ms, CuentaConocida);
    SumasSoloBancoYCash(ms, BANCO);
    SumasSoloBancoYCash(ms, CASH);
    assert SumaTipo(f, BANCO) == SumaTipo(ms, BANCO);
    assert SumaTipo(f, CASH) == SumaTipo(ms, CASH);
    MismasSumasMismosSaldos(f, ms);
  }

  lemma MismasSumasMismosSaldos(a: seq<Movimiento>, b: seq<Movimiento>)
    requires SumaTipo(a, BANCO) == SumaTipo(b, BANCO) && SumaTipo(a, CASH) == SumaTipo(b, CASH)
    ensures SaldosDe(a) == SaldosDe(b)
  {
  }

  /** The total is rounded from the unrounded sums, so it need not equal the
      sum of the two rounded account balances: half a cent in each account
      rounds to a cent each, while their sum rounds to a single cent. */
  lemma TotalDistintoDeLaSuma()
    ensures var ms := [Movimiento("1", "", "", BANCO, 0.005), Movimiento("2", "", "", CASH, 0.005)];
      SaldosDe(ms) == Saldos(0.01, 0.01, 0.01)
  {
    var a := Movimiento("1", "", "", BANCO, 0.005);
    var b := Movimiento("2", "", "", CASH, 0.005);
    SumasDeDos(a, b);
    MedioCentimoSube();
    Round2Centimos(0.01);
  }

  /** The account sums of a two-movement list, one movement at a time. */
  lemma SumasDeDos(a: Movimiento, b: Movimiento)
    requires a.tipo == BANCO && b.tipo == CASH
    ensures SumaTipo([a, b], BANCO) == a.cantidad
    ensures SumaTipo([a, b], CASH) == b.cantidad
  {
    SumaTipoAnadir([], a, BANCO);
    SumaTipoAnadir([], a, CASH);
    assert [] + [a] == [a];
    SumaTipoAnadir([a], b, BANCO);
    SumaTipoAnadir([a], b, CASH);
    assert [a] + [b] == [a, b];
  }

  /** Half a cent rounds up to a cent. */
  lemma MedioCentimoSube()
    ensures Round2(0.005) == 0.01
  {
    assert (0.005 * 100.0 + 0.5).Floor == 1;
  }

  lemma {:induction false} SumaCentimos(ms: seq<Movimiento>)
    requires forall m :: m in ms ==> EnCentimos(m.cantidad)
    ensures EnCentimos(SumaCantidades(ms))
  {
    if ms != [] {
      SumaCentimos(ms[..|ms| - 1]);
      var a := SumaCantidades(ms[..|ms| - 1]);
      var b := ms[|ms| - 1].cantidad;
      SumaDeCentimos(a, b);
    }
  }

  lemma SumaDeCentimos(a: real, b: real)
    requires EnCentimos(a) && EnCentimos(b)
    ensures EnCentimos(a + b)
  {
    var na := (a * 100.0).Floor;
    var nb := (b * 100.0).Floor;
    assert (a + b) * 100.0 == (na + nb) as real;
  }

  /** When every amount is a whole number of cents, rounding never acts and
      the total is exactly the bank balance plus the cash balance. */
  lemma TotalEsSumaEnCentimos(ms: seq<Movimiento>)
    requires forall m :: m in ms ==> EnCentimos(m.cantidad)
    ensures SaldosDe(ms).total == SaldosDe(ms).banco + SaldosDe(ms).cash
    ensures SaldosDe(ms).banco == SumaTipo(ms, BANCO)
  {
    var b := SumaTipo(ms, BANCO);
    var c := SumaTipo(ms, CASH);
    SumaCentimos(DelTipo(ms, BANCO));
    SumaCentimos(DelTipo(ms, CASH));
    SumaDeCentimos(b, c);
    Round2Centimos(b);
    Round2Centimos(c);
    Round2Centimos(b + c);
  }
}
