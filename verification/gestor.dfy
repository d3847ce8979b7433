/** The `GestorDatos` store: the movement list and its derived balances,
    with append, delete by id, replace by id, import and export. Persistence
    to browser storage is kept only as a ghost snapshot of what was last
    written. */
module Gestor {
  import opened Modelo
  import opened Fechas
  import opened Balances

  /** `movimientos.filter(m => m.id !== id)`. */
  function SinId(ms: seq<Movimiento>, id: string): (r: seq<Movimiento>)
    ensures IdLibre(r, id)
    ensures forall m :: m in r <==> m in ms && m.id != id
    ensures IdLibre(ms, id) ==> r == ms
  {
    if ms == [] then []
    else
      assert ms == [ms[0]] + ms[1..];
      var resto := SinId(ms[1..], id);
      if ms[0].id != id then [ms[0]] + resto else resto
  }

  /** Deleting by id works piecewise, so the entries that stay keep their
      relative order. */
  lemma {:induction false} SinIdConcat(a: seq<Movimiento>, b: seq<Movimiento>, id: string)
    ensures SinId(a + b, id) == SinId(a, id) + SinId(b, id)
  {
    if a == [] {
      assert a + b == b;
    } else {
      assert (a + b)[1..] == a[1..] + b;
      SinIdConcat(a[1..], b, id);
    }
  }

  /** Appending an entry under a fresh id and then deleting that id gives the
      previous list back, in the same order. */
  lemma AnadirLuegoEliminar(ms: seq<Movimiento>, m: Movimiento)
    requires IdLibre(ms, m.id)
    ensures SinId(ms + [m], m.id) == ms
  {
    SinIdConcat(ms, [m], m.id);
    assert SinId([m], m.id) == [] by {
      assert [m][1..] == [];
    }
    assert ms + [] == ms;
  }

  /** `movimientos.findIndex(m => m.id === id)`: the first index holding
      `id`, or -1 when there is none. */
  function IndiceDe(ms: seq<Movimiento>, id: string): (r: int)
    ensures -1 <= r < |ms|
    ensures r == -1 <==> IdLibre(ms, id)
    ensures r >= 0 ==> ms[r].id == id && IdLibre(ms[..r], id)
  {
    if ms == [] then -1
    else if ms[0].id == id then 0
    else
      var k := IndiceDe(ms[1..], id);
      if k == -1 then -1
      else
        assert ms[..k + 1] == [ms[0]] + ms[1..][..k];
        k + 1
  }

  /** The per-movement rewrite of `importarDatos`: a date containing `/` is
      converted to the stored shape, any other date is kept. */
  function FechaImportada(m: Movimiento): (r: Movimiento)
    ensures r.id == m.id && r.asunto == m.asunto && r.tipo == m.tipo && r.cantidad == m.cantidad
    ensures '/' !in m.fecha ==> r == m
    ensures EsFechaMostrar(m.fecha) ==> EsFechaAlmacen(r.fecha)
  {
    if m.fecha != "" && '/' in m.fecha then
      var r := m.(fecha := ConvertirDdmmyyyy(m.fecha));
      assert EsFechaMostrar(m.fecha) ==> EsFechaAlmacen(r.fecha) by {
        if EsFechaMostrar(m.fecha) {
          MostrarAlmacenMostrar(m.fecha);
        }
      }
      r
    else
      assert !EsFechaMostrar(m.fecha) by {
        if |m.fecha| == 10 {
          assert m.fecha[2] in m.fecha;
        }
      }
      m
  }

  /** The per-movement rewrite of `exportarDatos`: the date in display shape. */
  function FechaExportada(m: Movimiento): (r: Movimiento)
    ensures r.id == m.id && r.asunto == m.asunto && r.tipo == m.tipo && r.cantidad == m.cantidad
    ensures '/' in m.fecha ==> r == m
    ensures EsFechaAlmacen(m.fecha) ==> EsFechaMostrar(r.fecha)
  {
    var r := m.(fecha := FormatearParaMostrar(m.fecha));
    assert EsFechaAlmacen(m.fecha) ==> EsFechaMostrar(r.fecha) by {
      if EsFechaAlmacen(m.fecha) {
        AlmacenMostrarAlmacen(m.fecha);
      }
    }
    r
  }

  /** The movements of `importarDatos`, in order, each with its display-shape
      date brought to the stored shape. */
  function ImportarFechas(ms: seq<Movimiento>): (r: seq<Movimiento>)
    ensures |r| == |ms|
    ensures forall k :: 0 <= k < |ms| ==>
      r[k].id == ms[k].id && r[k].asunto == ms[k].asunto && r[k].tipo == ms[k].tipo && r[k].cantidad == ms[k].cantidad
    ensures forall k :: 0 <= k < |ms| && EsFechaMostrar(ms[k].fecha) ==> EsFechaAlmacen(r[k].fecha)
  {
    seq(|ms|, k requires 0 <= k < |ms| => FechaImportada(ms[k]))
  }

  /** The movements of `exportarDatos`, in order, each with its stored date
      rendered in display shape. */
  function ExportarFechas(ms: seq<Movimiento>): (r: seq<Movimiento>)
    ensures |r| == |ms|
    ensures forall k :: 0 <= k < |ms| ==>
      r[k].id == ms[k].id && r[k].asunto == ms[k].asunto && r[k].tipo == ms[k].tipo && r[k].cantidad == ms[k].cantidad
    ensures forall k :: 0 <= k < |ms| && EsFechaAlmacen(ms[k].fecha) ==> EsFechaMostrar(r[k].fecha)
  {
    seq(|ms|, k requires 0 <= k < |ms| => FechaExportada(ms[k]))
  }

  /** Exporting and importing again is the same as importing: a padded
      stored date comes back unchanged, and a date that was kept in display
      shape (as the entry form stores it) comes back converted. */
  lemma ExportarLuegoImportar(ms: seq<Movimiento>)
    requires forall k :: 0 <= k < |ms| ==> EsFechaAlmacen(ms[k].fecha) || '/' in ms[k].fecha
    ensures ImportarFechas(ExportarFechas(ms)) == ImportarFechas(ms)
  {
    forall k | 0 <= k < |ms|
      ensures FechaImportada(FechaExportada(ms[k])) == FechaImportada(ms[k])
    {
      var c := ms[k].fecha;
      if '/' !in c {
        AlmacenMostrarAlmacen(c);
      }
    }
  }

  /** Hence a list whose dates are all padded stored dates survives the
      export/import round trip unchanged. */
  lemma ExportarImportarIdentidad(ms: seq<Movimiento>)
    requires forall k :: 0 <= k < |ms| ==> EsFechaAlmacen(ms[k].fecha)
    ensures ImportarFechas(ExportarFechas(ms)) == ms
  {
    forall k | 0 <= k < |ms|
      ensures FechaImportada(FechaExportada(ms[k])) == ms[k]
    {
      AlmacenMostrarAlmacen(ms[k].fecha);
    }
  }

  /** The `forEach` of `exportarDatos` over the copied movements: each
      date is rewritten in place by `FechaExportada`. */
  method ConvertirFechasExportadas(copia: seq<Movimiento>) returns (movs: seq<Movimiento>)
    ensures movs == ExportarFechas(copia)
  {
    movs := copia;
    var i := 0;
    while i < |movs|
      invariant 0 <= i <= |movs| == |copia|
      invariant forall k :: 0 <= k < i ==> movs[k] == FechaExportada(copia[k])
      invariant forall k :: i <= k < |movs| ==> movs[k] == copia[k]
    {
      movs := movs[i := FechaExportada(movs[i])];
      i := i + 1;
    }
    PorElementoExportadas(copia, movs);
  }

  /** A list holding, index by index, the rewrites of `ms` is `ExportarFechas(ms)`. */
  lemma PorElementoExportadas(ms: seq<Movimiento>, r: seq<Movimiento>)
    requires |r| == |ms| && forall k :: 0 <= k < |ms| ==> r[k] == FechaExportada(ms[k])
    ensures r == ExportarFechas(ms)
  {
    var e := ExportarFechas(ms);
    forall k | 0 <= k < |ms| ensures r[k] == e[k] {}
  }

  /** The `forEach` of `importarDatos` over the parsed movements: each
      movement is rewritten in place by `FechaImportada`. */
  method ConvertirFechasImportadas(importados: seq<Movimiento>) returns (movs: seq<Movimiento>)
    ensures movs == ImportarFechas(importados)
  {
    movs := importados;
    var i := 0;
    while i < |movs|
      invariant 0 <= i <= |movs| == |importados|
      invariant forall k :: 0 <= k < i ==> movs[k] == FechaImportada(importados[k])
      invariant forall k :: i <= k < |movs| ==> movs[k] == importados[k]
    {
      movs := movs[i := FechaImportada(movs[i])];
      i := i + 1;
    }
    PorElementoImportadas(importados, movs);
  }

  /** A list holding, index by index, the rewrites of `ms` is `ImportarFechas(ms)`. */
  lemma PorElementoImportadas(ms: seq<Movimiento>, r: seq<Movimiento>)
    requires |r| == |ms| && forall k :: 0 <= k < |ms| ==> r[k] == FechaImportada(ms[k])
    ensures r == ImportarFechas(ms)
  {
    var e := ImportarFechas(ms);
    forall k | 0 <= k < |ms| ensures r[k] == e[k] {}
  }

  class GestorDatos {
    var movimientos: seq<Movimiento>
    var saldos: Saldos
    /** What the last write to browser storage held, if anything. */
    ghost var guardado: Option<Datos>

    /** The balances are derived from the movements. */
    ghost predicate Valid()
      reads this
    {
      saldos == SaldosDe(movimientos)
    }

    /** `new GestorDatos()`: load what storage holds (`almacenado`, already
        parsed), or start empty, then derive the balances. */
    constructor (almacenado: Option<Datos>)
      ensures Valid()
      ensures almacenado.None? ==> movimientos == []
      ensures almacenado.Some? ==> movimientos == almacenado.value.movimientos
      ensures guardado == almacenado
    {
      if almacenado.Some? {
        movimientos, saldos := almacenado.value.movimientos, almacenado.value.saldos;
      } else {
        movimientos, saldos := [], SaldosIniciales;
      }
      guardado := almacenado;
      new;
      CalcularSaldos();
    }

    /** `calcularSaldos`: overwrite the balances with those of the movements. */
    method CalcularSaldos()
      modifies this`saldos
      ensures Valid()
      ensures saldos.banco == Round2(SumaTipo(movimientos, BANCO))
      ensures saldos.cash == Round2(SumaTipo(movimientos, CASH))
      ensures saldos.total == Round2(SumaTipo(movimientos, BANCO) + SumaTipo(movimientos, CASH))
    {
      var saldoBanco := SumaCantidades(DelTipo(movimientos, BANCO));
      var saldoCash := SumaCantidades(DelTipo(movimientos, CASH));
      saldos := Saldos(Round2(saldoBanco), Round2(saldoCash), Round2(saldoBanco + saldoCash));
    }

    /** `guardarDatos`: write the record (with the balances as they were
        before this call) to storage, then recompute the balances. */
    method GuardarDatos() returns (d: Datos)
      modifies this`saldos, this`guardado
      ensures guardado == Some(Datos(movimientos, old(saldos)))
      ensures Valid() && d == Datos(movimientos, saldos)
    {
      guardado := Some(Datos(movimientos, saldos));
      CalcularSaldos();
      d := Datos(movimientos, saldos);
    }

    /** `agregarMovimiento`: the entry gets the id `id` (the caller's
        `Date.now()`) and goes at the end, its date kept verbatim. An entry
        without a date makes the source fall back on `new Date()`, which
        `formatearFechaParaAlmacenar` cannot handle: the call throws before
        anything is appended or saved, shown here as `None` with the store
        untouched. */
    method AgregarMovimiento(m: Movimiento, id: string) returns (d: Option<Datos>)
      requires Valid()
      modifies this
      ensures Valid()
      ensures m.fecha == "" ==>
        d.None? && movimientos == old(movimientos) && saldos == old(saldos) && guardado == old(guardado)
      ensures m.fecha != "" ==>
        movimientos == old(movimientos) + [m.(id := id)] &&
        d == Some(Datos(movimientos, saldos)) &&
        guardado == Some(Datos(movimientos, old(saldos)))
    {
      if m.fecha == "" {
        return None;
      }
      movimientos := movimientos + [m.(id := id)];
      var r := GuardarDatos();
      d := Some(r);
    }

    /** `eliminarMovimiento`: drop every entry carrying `id`. */
    method EliminarMovimiento(id: string) returns (d: Datos)
      requires Valid()
      modifies this
      ensures movimientos == SinId(old(movimientos), id)
      ensures Valid() && d == Datos(movimientos, saldos)
      ensures guardado == Some(Datos(movimientos, old(saldos)))
    {
      movimientos := SinId(movimientos, id);
      d := GuardarDatos();
    }

    /** `modificarMovimiento`: the first entry carrying `id` is replaced by
        `m` with its id set to `id` and its date brought to the stored shape;
        with no such entry nothing changes and nothing is saved. */
    method ModificarMovimiento(id: string, m: Movimiento, fechaHost: string -> Option<string>) returns (d: Datos)
      requires Valid()
      modifies this
      ensures Valid() && d == Datos(movimientos, saldos)
      ensures IdLibre(old(movimientos), id) ==>
        movimientos == old(movimientos) && saldos == old(saldos) && guardado == old(guardado)
      ensures !IdLibre(old(movimientos), id) ==>
        movimientos == old(movimientos)[IndiceDe(old(movimientos), id) :=
          m.(id := id, fecha := FormatearParaAlmacenar(m.fecha, fechaHost))] &&
        guardado == Some(Datos(movimientos, old(saldos)))
    {
      var indice := IndiceDe(movimientos, id);
      if indice != -1 {
        var actualizado := m.(id := id, fecha := FormatearParaAlmacenar(m.fecha, fechaHost));
        movimientos := movimientos[indice := actualizado];
        d := GuardarDatos();
      } else {
        d := Datos(movimientos, saldos);
      }
    }

    /** `importarDatos`: `analizado` is the outcome of `JSON.parse` (`None`
        when it throws). On failure nothing changes and the answer is false;
        otherwise every date containing `/` is converted to the stored shape,
        the parsed record replaces the current one and is saved. */
    method ImportarDatos(analizado: Option<Datos>) returns (ok: bool)
      requires Valid()
      modifies this
      ensures Valid()
      ensures ok == analizado.Some?
      ensures !ok ==> movimientos == old(movimientos) && saldos == old(saldos) && guardado == old(guardado)
      ensures ok ==> (movimientos == ImportarFechas(analizado.value.movimientos) &&
        guardado == Some(Datos(movimientos, analizado.value.saldos)))
    {
      if analizado.None? {
        return false;
      }
      var importados := analizado.value;
      var movs := ConvertirFechasImportadas(importados.movimientos);
      movimientos, saldos := movs, importados.saldos;
      var _ := GuardarDatos();
      ok := true;
    }

    /** `exportarDatos`: a copy of the record with every date in display
        shape; the store itself is not touched. */
    method ExportarDatos() returns (d: Datos)
      ensures d == Datos(ExportarFechas(movimientos), saldos)
    {
      var movs := ConvertirFechasExportadas(movimientos);
      d := Datos(movs, saldos);
    }
  }

  /** Adding an entry under a fresh id and deleting that id at once restores
      both the movement list and the balances. */
  method AgregarYEliminar(g: GestorDatos, m: Movimiento, id: string)
    requires g.Valid() && IdLibre(g.movimientos, id)
    modifies g
    ensures g.movimientos == old(g.movimientos) && g.saldos == old(g.saldos)
  {
    var antes := g.movimientos;
    var _ := g.AgregarMovimiento(m, id);
    if m.fecha != "" {
      AnadirLuegoEliminar(antes, g.movimientos[|antes|]);
    }
    var _ := g.EliminarMovimiento(id);
  }
}
