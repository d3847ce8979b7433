/** The filter pipeline of `aplicarFiltros`: a copy of the movement list is
    narrowed by every filter the user filled in (date from, date to, amount
    minimum, amount maximum, exact type) and then sorted newest first. */
module Filtros {
  import opened Modelo
  import opened Fechas

  // ------------------------------------------------- string comparison

  /** JavaScript `a <= b` on strings: lexicographic by character code, a
      proper prefix coming first. */
  predicate MenorIgual(a: string, b: string)
    ensures a <= b ==> MenorIgual(a, b)
  {
    a == [] || (b != [] && (a[0] < b[0] || (a[0] == b[0] && MenorIgual(a[1..], b[1..]))))
  }

  /** `a` and `b` agree up to index `k`, where `a` has the smaller
      character. */
  predicate AntesEn(a: string, b: string, k: nat)
  {
    k < |a| && k < |b| && a[..k] == b[..k] && a[k] < b[k]
  }

  /** The string order is the lexicographic one: `a <= b` exactly when `a`
      is a prefix of `b` or has the smaller character at the first place
      where the two differ. */
  lemma {:induction false} MenorIgualLexicografico(a: string, b: string)
    ensures MenorIgual(a, b) <==> a <= b || exists k: nat :: AntesEn(a, b, k)
  {
    if a != [] && b != [] {
      MenorIgualLexicografico(a[1..], b[1..]);
      if a[0] < b[0] {
        assert AntesEn(a, b, 0);
      } else {
        forall k: nat | AntesEn(a, b, k)
          ensures k >= 1 && a[0] == b[0] && AntesEn(a[1..], b[1..], k - 1)
        {
          if k == 0 {
            assert false;
          }
          assert a[..k][0] == b[..k][0];
          assert a[1..][..k - 1] == a[..k][1..] && b[1..][..k - 1] == b[..k][1..];
        }
        if a[0] == b[0] {
          forall k: nat | AntesEn(a[1..], b[1..], k)
            ensures AntesEn(a, b, k + 1)
          {
            assert a[..k + 1] == [a[0]] + a[1..][..k] && b[..k + 1] == [b[0]] + b[1..][..k];
          }
          assert a <= b <==> a[1..] <= b[1..] by {
            assert a == [a[0]] + a[1..] && b == [b[0]] + b[1..];
          }
        }
      }
    }
  }

  lemma {:induction false} MenorIgualReflexiva(a: string)
    ensures MenorIgual(a, a)
  {
    if a != [] {
      MenorIgualReflexiva(a[1..]);
    }
  }

  lemma {:induction false} MenorIgualTotal(a: string, b: string)
    ensures MenorIgual(a, b) || MenorIgual(b, a)
  {
    if a != [] && b != [] && a[0] == b[0] {
      MenorIgualTotal(a[1..], b[1..]);
    }
  }

  lemma {:induction false} MenorIgualTransitiva(a: string, b: string, c: string)
    requires MenorIgual(a, b) && MenorIgual(b, c)
    ensures MenorIgual(a, c)
  {
    if a != [] && a[0] == b[0] && b[0] == c[0] {
      MenorIgualTransitiva(a[1..], b[1..], c[1..]);
    }
  }

  // ------------------------------------------------------------ filters

  /** The five filter inputs, as the form fields hold them ("" = unused). */
  datatype Filtros = Filtros(
    fechaDesde: string,
    fechaHasta: string,
    cantidadMin: string,
    cantidadMax: string,
    tipo: string)

  const SinFiltros := Filtros("", "", "", "", "")

  /** What `parseFloat` can return: NaN, a finite number, or an infinity
      (`"Infinity"`, `"-Infinity"`, or a literal too large for a double). */
  datatype Flotante = NoEsNumero | Finito(valor: real) | MasInfinito | MenosInfinito

  /** JavaScript `c >= x` for a finite `c`: false against NaN. */
  predicate AlMenos(c: real, x: Flotante)
    ensures x.NoEsNumero? || x.MasInfinito? ==> !AlMenos(c, x)
    ensures x.MenosInfinito? ==> AlMenos(c, x)
  {
    match x
    case NoEsNumero => false
    case Finito(v) => c >= v
    case MasInfinito => false
    case MenosInfinito => true
  }

  /** JavaScript `c <= x` for a finite `c`: false against NaN. */
  predicate ComoMucho(c: real, x: Flotante)
    ensures x.NoEsNumero? || x.MenosInfinito? ==> !ComoMucho(c, x)
    ensures x.MasInfinito? ==> ComoMucho(c, x)
  {
    match x
    case NoEsNumero => false
    case Finito(v) => c <= v
    case MasInfinito => true
    case MenosInfinito => false
  }

  /** The two amount tests behave as comparisons do: NaN fails both, a
      number passes at least one, both only when it equals the amount, and
      a larger amount still meets a minimum while a smaller one still meets
      a maximum. */
  lemma LimitesDeCantidad(c: real, d: real, x: Flotante)
    ensures x.NoEsNumero? ==> !AlMenos(c, x) && !ComoMucho(c, x)
    ensures !x.NoEsNumero? ==> AlMenos(c, x) || ComoMucho(c, x)
    ensures AlMenos(c, x) && ComoMucho(c, x) <==> x == Finito(c)
    ensures c <= d && AlMenos(c, x) ==> AlMenos(d, x)
    ensures c <= d && ComoMucho(d, x) ==> ComoMucho(c, x)
  {
  }

  /** The form field that switches filter `i` on, in the order the code
      applies the filters. */
  function Campo(f: Filtros, i: nat): string
  {
    if i == 0 then f.fechaDesde
    else if i == 1 then f.fechaHasta
    else if i == 2 then f.cantidadMin
    else if i == 3 then f.cantidadMax
    else f.tipo
  }

  /** What filter `i` demands of `m` once its field is filled in. Date bounds
      are first converted to `yyyy-mm-dd` and compared as strings; amount
      bounds go through `aFloat` (`parseFloat`) and are compared the way
      JavaScript compares with NaN and the infinities; the type must match
      exactly. */
  predicate Cumple(m: Movimiento, f: Filtros, aFloat: string -> Flotante, i: nat)
    ensures i == 0 && '/' !in f.fechaDesde ==> (Cumple(m, f, aFloat, i) <==> MenorIgual(f.fechaDesde, m.fecha))
    ensures i == 1 && '/' !in f.fechaHasta ==> (Cumple(m, f, aFloat, i) <==> MenorIgual(m.fecha, f.fechaHasta))
    ensures i == 2 && aFloat(f.cantidadMin).NoEsNumero? ==> !Cumple(m, f, aFloat, i)
    ensures i == 3 && aFloat(f.cantidadMax).NoEsNumero? ==> !Cumple(m, f, aFloat, i)
    ensures i >= 4 ==> (Cumple(m, f, aFloat, i) <==> m.tipo == f.tipo)
  {
    if i == 0 then MenorIgual(ConvertirDdmmyyyy(f.fechaDesde), m.fecha)
    else if i == 1 then MenorIgual(m.fecha, ConvertirDdmmyyyy(f.fechaHasta))
    else if i == 2 then AlMenos(m.cantidad, aFloat(f.cantidadMin))
    else if i == 3 then ComoMucho(m.cantidad, aFloat(f.cantidadMax))
    else m.tipo == f.tipo
  }

  /** Filter `i` holds of `m`: unused, or satisfied. */
  predicate Condicion(m: Movimiento, f: Filtros, aFloat: string -> Flotante, i: nat)
  {
    Campo(f, i) == "" || Cumple(m, f, aFloat, i)
  }

  /** The first `n` filters all hold of `m`. */
  predicate Etapa(m: Movimiento, f: Filtros, aFloat: string -> Flotante, n: nat)
  {
    n == 0 || (Etapa(m, f, aFloat, n - 1) && Condicion(m, f, aFloat, n - 1))
  }

  /** Every filter holds of `m`. */
  predicate Pasa(m: Movimiento, f: Filtros, aFloat: string -> Flotante)
  {
    Etapa(m, f, aFloat, 5)
  }

  /** The first `n` filters hold exactly when each of them does. */
  lemma {:induction false} EtapaCadaFiltro(m: Movimiento, f: Filtros, aFloat: string -> Flotante, n: nat)
    ensures Etapa(m, f, aFloat, n) <==> forall i :: 0 <= i < n ==> Condicion(m, f, aFloat, i)
  {
    if n > 0 {
      EtapaCadaFiltro(m, f, aFloat, n - 1);
    }
  }

  /** Passing means passing each of the five filters, and conversely. */
  lemma PasaCadaFiltro(m: Movimiento, f: Filtros, aFloat: string -> Flotante)
    ensures Pasa(m, f, aFloat) <==> forall i :: 0 <= i < 5 ==> Condicion(m, f, aFloat, i)
  {
    EtapaCadaFiltro(m, f, aFloat, 5);
  }

  /** The test of filter `i` as a function value, for `Filtrar`. */
  function Criterio(f: Filtros, aFloat: string -> Flotante, i: nat): Movimiento -> bool
  {
    m => Cumple(m, f, aFloat, i)
  }

  /** The first `n` filters as a function value. */
  function Etapas(f: Filtros, aFloat: string -> Flotante, n: nat): Movimiento -> bool
  {
    m => Etapa(m, f, aFloat, n)
  }

  /** Applying filter `n` to what the first `n` let through leaves what the
      first `n + 1` let through. */
  lemma PasoActivo(todos: seq<Movimiento>, f: Filtros, aFloat: string -> Flotante, n: nat)
    requires Campo(f, n) != ""
    ensures Filtrar(Filtrar(todos, Etapas(f, aFloat, n)), Criterio(f, aFloat, n)) == Filtrar(todos, Etapas(f, aFloat, n + 1))
  {
    FiltrarDosVeces(todos, Etapas(f, aFloat, n), Criterio(f, aFloat, n), Etapas(f, aFloat, n + 1));
  }

  /** An unused filter lets everything through. */
  lemma PasoInactivo(todos: seq<Movimiento>, f: Filtros, aFloat: string -> Flotante, n: nat)
    requires Campo(f, n) == ""
    ensures Filtrar(todos, Etapas(f, aFloat, n)) == Filtrar(todos, Etapas(f, aFloat, n + 1))
  {
    FiltrarIgual(todos, Etapas(f, aFloat, n), Etapas(f, aFloat, n + 1));
  }

  // ------------------------------------------------------------ sorting

  /** Each movement is no older (by date string) than the next. */
  predicate Descendente(s: seq<Movimiento>)
  {
    forall k :: 0 <= k < |s| - 1 ==> MenorIgual(s[k + 1].fecha, s[k].fecha)
  }

  /** Insert `m` before the first movement not newer than it. */
  function Insertar(m: Movimiento, t: seq<Movimiento>): (r: seq<Movimiento>)
    requires Descendente(t)
    ensures multiset(r) == multiset(t) + multiset{m}
    ensures Descendente(r)
    ensures r[0] == m || (t != [] && r[0] == t[0])
  {
    if t == [] || MenorIgual(t[0].fecha, m.fecha) then [m] + t
    else
      MenorIgualTotal(t[0].fecha, m.fecha);
      assert t == [t[0]] + t[1..];
      [t[0]] + Insertar(m, t[1..])
  }

  /** The newest-first order of `aplicarFiltros` (a stable insertion sort on
      the date strings): a permutation of its input, sorted descending. */
  function OrdenarPorFecha(s: seq<Movimiento>): (r: seq<Movimiento>)
    ensures multiset(r) == multiset(s)
    ensures Descendente(r)
  {
    if s == [] then []
    else
      assert s == [s[0]] + s[1..];
      Insertar(s[0], OrdenarPorFecha(s[1..]))
  }

  /** The movements of `s` dated exactly `fecha`, in order. */
  function ConFecha(s: seq<Movimiento>, fecha: string): seq<Movimiento>
  {
    if s == [] then [] else (if s[0].fecha == fecha then [s[0]] else []) + ConFecha(s[1..], fecha)
  }

  /** `ConFecha` of a list with a given first element. */
  lemma ConFechaCons(x: Movimiento, s: seq<Movimiento>, fecha: string)
    ensures ConFecha([x] + s, fecha) == (if x.fecha == fecha then [x] else []) + ConFecha(s, fecha)
  {
    assert ([x] + s)[1..] == s;
  }

  /** Inserting keeps the order of the movements of each date. */
  lemma {:induction false} InsertarEstable(m: Movimiento, t: seq<Movimiento>, fecha: string)
    requires Descendente(t)
    ensures ConFecha(Insertar(m, t), fecha) == ConFecha([m] + t, fecha)
  {
    if t != [] && !MenorIgual(t[0].fecha, m.fecha) {
      InsertarPaso(m, t);
      InsertarEstable(m, t[1..], fecha);
      IntercambiarCabezas(m, t, fecha);
      ConFechaCons(t[0], Insertar(m, t[1..]), fecha);
    }
  }

  /** Where `m` goes further down: the head of `t` stays in front. */
  lemma InsertarPaso(m: Movimiento, t: seq<Movimiento>)
    requires Descendente(t) && t != [] && !MenorIgual(t[0].fecha, m.fecha)
    ensures Descendente(t[1..])
    ensures Insertar(m, t) == [t[0]] + Insertar(m, t[1..])
  {
  }

  /** `m` and a head of `t` with another date can trade places without
      changing any `ConFecha`. */
  lemma IntercambiarCabezas(m: Movimiento, t: seq<Movimiento>, fecha: string)
    requires t != [] && !MenorIgual(t[0].fecha, m.fecha)
    ensures ConFecha([m] + t, fecha) == (if t[0].fecha == fecha then [t[0]] else []) + ConFecha([m] + t[1..], fecha)
  {
    MenorIgualReflexiva(m.fecha);
    assert t == [t[0]] + t[1..];
    ConFechaCons(m, t, fecha);
    ConFechaCons(t[0], t[1..], fecha);
    ConFechaCons(m, t[1..], fecha);
  }

  /** The sort is stable: movements with equal dates keep their relative
      order. */
  lemma {:induction false} OrdenarEstable(s: seq<Movimiento>, fecha: string)
    ensures ConFecha(OrdenarPorFecha(s), fecha) == ConFecha(s, fecha)
  {
    if s != [] {
      OrdenarEstable(s[1..], fecha);
      InsertarEstable(s[0], OrdenarPorFecha(s[1..]), fecha);
      assert ([s[0]] + OrdenarPorFecha(s[1..]))[1..] == OrdenarPorFecha(s[1..]);
    }
  }

  /** Sorted neighbour by neighbour means sorted throughout. */
  lemma DescendenteGlobal(s: seq<Movimiento>, i: nat, j: nat)
    requires Descendente(s) && i <= j < |s|
    ensures MenorIgual(s[j].fecha, s[i].fecha)
    decreases j - i
  {
    if i == j {
      MenorIgualReflexiva(s[i].fecha);
    } else {
      DescendenteGlobal(s, i + 1, j);
      MenorIgualTransitiva(s[j].fecha, s[i + 1].fecha, s[i].fecha);
    }
  }

  // ----------------------------------------------------- the pipeline

  /** What `aplicarFiltros` shows: the movements passing every filter in
      use, newest first. */
  function Seleccion(todos: seq<Movimiento>, f: Filtros, aFloat: string -> Flotante): (r: seq<Movimiento>)
    ensures |r| <= |todos|
    ensures forall k :: 0 <= k < |r| ==> Pasa(r[k], f, aFloat)
    ensures Descendente(r)
  {
    var p := Etapas(f, aFloat, 5);
    var s := Filtrar(todos, p);
    var r := OrdenarPorFecha(s);
    assert |r| == |s| by {
      assert |multiset(r)| == |multiset(s)|;
    }
    forall k | 0 <= k < |r| ensures Pasa(r[k], f, aFloat) {
      assert r[k] in multiset(s);
      var j :| 0 <= j < |s| && s[j] == r[k];
      assert p(s[j]);
    }
    r
  }

  /** A movement that passes appears in the selection as often as in
      `todos`; one that fails does not appear. */
  lemma SeleccionCuenta(todos: seq<Movimiento>, f: Filtros, aFloat: string -> Flotante, m: Movimiento)
    ensures multiset(Seleccion(todos, f, aFloat))[m] == if Pasa(m, f, aFloat) then multiset(todos)[m] else 0
  {
    var p := Etapas(f, aFloat, 5);
    FiltrarCuenta(todos, p, m);
    assert p(m) == Pasa(m, f, aFloat);
  }

  /** The selection keeps exactly the movements that pass, each as often as
      it occurs, newest first; with no filter in use it is the whole list,
      sorted. */
  lemma SeleccionCorrecta(todos: seq<Movimiento>, f: Filtros, aFloat: string -> Flotante)
    ensures forall m :: multiset(Seleccion(todos, f, aFloat))[m] == if Pasa(m, f, aFloat) then multiset(todos)[m] else 0
    ensures forall m :: m in Seleccion(todos, f, aFloat) <==> m in todos && Pasa(m, f, aFloat)
    ensures Descendente(Seleccion(todos, f, aFloat))
    ensures f == SinFiltros ==> Seleccion(todos, f, aFloat) == OrdenarPorFecha(todos)
  {
    var r := Seleccion(todos, f, aFloat);
    forall m
      ensures multiset(r)[m] == if Pasa(m, f, aFloat) then multiset(todos)[m] else 0
      ensures m in r <==> m in todos && Pasa(m, f, aFloat)
    {
      SeleccionCuenta(todos, f, aFloat, m);
    }
    SinFiltrosTodoPasa(todos, f, aFloat);
  }

  /** One `if (campo) movs = movs.filter(...)` step of `aplicarFiltros`:
      filter `n` is applied when its field is filled in and skipped
      otherwise. */
  method AplicarFiltro(ghost todos: seq<Movimiento>, movs: seq<Movimiento>, f: Filtros, aFloat: string -> Flotante, n: nat)
    returns (r: seq<Movimiento>)
    requires movs == Filtrar(todos, Etapas(f, aFloat, n))
    ensures r == Filtrar(todos, Etapas(f, aFloat, n + 1))
  {
    if Campo(f, n) != "" {
      PasoActivo(todos, f, aFloat, n);
      r := Filtrar(movs, Criterio(f, aFloat, n));
    } else {
      PasoInactivo(todos, f, aFloat, n);
      r := movs;
    }
  }

  /** `aplicarFiltros` minus the DOM: work on a copy of `todos`, narrow it by
      the date-from, date-to, minimum, maximum and type filters in that
      order (filter `n` of `Campo`), then sort newest first. `todos` is the list last shown in the table
      (`todosLosMovimientos`); it is a value and is not changed. */
  method AplicarFiltros(todos: seq<Movimiento>, f: Filtros, aFloat: string -> Flotante) returns (movs: seq<Movimiento>)
    ensures movs == Seleccion(todos, f, aFloat)
  {
    movs := todos;
    FiltrarTodos(todos, Etapas(f, aFloat, 0));
    for n := 0 to 5
      invariant movs == Filtrar(todos, Etapas(f, aFloat, n))
    {
      movs := AplicarFiltro(todos, movs, f, aFloat, n);
    }
    movs := OrdenarPorFecha(movs);
  }

  lemma SinFiltrosTodoPasa(todos: seq<Movimiento>, f: Filtros, aFloat: string -> Flotante)
    ensures f == SinFiltros ==> Filtrar(todos, Etapas(f, aFloat, 5)) == todos
  {
    if f == SinFiltros {
      forall k | 0 <= k < |todos|
        ensures Etapas(f, aFloat, 5)(todos[k])
      {
        PasaCadaFiltro(todos[k], f, aFloat);
      }
      FiltrarTodos(todos, Etapas(f, aFloat, 5));
    }
  }

  /** A filled-in date-to bound with no `/` is used as it stands: an entry
      passes that filter exactly when its date string is not greater than
      the bound. */
  lemma HastaSinBarras(m: Movimiento, f: Filtros, aFloat: string -> Flotante)
    requires f.fechaHasta != "" && '/' !in f.fechaHasta
    ensures Condicion(m, f, aFloat, 1) == MenorIgual(m.fecha, f.fechaHasta)
  {
    assert Cuenta(f.fechaHasta, '/') == 0;
  }

  lemma MostradaMayor()
    ensures !MenorIgual("25/12/2023", "2023-12-31")
  {
  }

  /** An entry dated after a filled-in date-to bound does not pass. */
  lemma FueraDeHasta(m: Movimiento, f: Filtros, aFloat: string -> Flotante)
    requires f.fechaHasta != "" && !MenorIgual(m.fecha, ConvertirDdmmyyyy(f.fechaHasta))
    ensures !Pasa(m, f, aFloat)
  {
    assert !Condicion(m, f, aFloat, 1);
    PasaCadaFiltro(m, f, aFloat);
  }

  /** The entry form stores dates in display shape, so such an entry fails a
      "date to" bound given in stored shape even when its day lies inside the
      range: `25/12/2023` is not `<= 2023-12-31` as strings. */
  lemma FechaMostradaFueraDeRango(m: Movimiento, aFloat: string -> Flotante)
    requires m.fecha == "25/12/2023"
    ensures !Pasa(m, Filtros("", "2023-12-31", "", "", ""), aFloat)
  {
    assert '/' !in "2023-12-31";
    MostradaMayor();
    FueraDeHasta(m, Filtros("", "2023-12-31", "", "", ""), aFloat);
  }
}
