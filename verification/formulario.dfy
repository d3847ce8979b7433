/** The entry form of `guardarMovimiento`: trimming, the four validation
    steps (empty fields, date pattern, real calendar date, finite amount),
    the zero-padding of the date, and the hand-over to the store. */
module Formulario {
  import opened Modelo
  import opened Fechas
  import opened Gestor

  // ---------------------------------------------------------------- trim

  /** The characters `String.prototype.trim` removes. */
  predicate EsEspacio(c: char)
  {
    c == ' ' || c == '\t' || c == '\n' || c == '\r' || c == '\U{000B}' || c == '\U{000C}' ||
    c == '\U{00A0}' || c == '\U{1680}' || ('\U{2000}' <= c <= '\U{200A}') ||
    c == '\U{2028}' || c == '\U{2029}' || c == '\U{202F}' || c == '\U{205F}' ||
    c == '\U{3000}' || c == '\U{FEFF}'
  }

  predicate TodoEspacios(s: string)
  {
    forall k :: 0 <= k < |s| ==> EsEspacio(s[k])
  }

  /** Index of the first character that is not white space. */
  function Inicio(s: string): (i: nat)
    ensures i <= |s|
    ensures forall k :: 0 <= k < i ==> EsEspacio(s[k])
    ensures i < |s| ==> !EsEspacio(s[i])
  {
    if s == [] || !EsEspacio(s[0]) then 0 else 1 + Inicio(s[1..])
  }

  /** End of `s` with its trailing white space cut off, never before `i`. */
  function Fin(s: string, i: nat): (j: nat)
    requires i <= |s|
    ensures i <= j <= |s|
    ensures forall k :: j <= k < |s| ==> EsEspacio(s[k])
    ensures j > i ==> !EsEspacio(s[j - 1])
  {
    if |s| == i || !EsEspacio(s[|s| - 1]) then |s| else Fin(s[..|s| - 1], i)
  }

  /** `s.trim()`: the slice of `s` left when the white space at both ends
      is cut off, so it neither starts nor ends with white space; empty
      exactly when `s` is all white space. */
  function Recortar(s: string): (r: string)
    ensures exists i, j :: 0 <= i <= j <= |s| && r == s[i..j] && TodoEspacios(s[..i]) && TodoEspacios(s[j..])
    ensures r == "" <==> TodoEspacios(s)
    ensures r != "" ==> !EsEspacio(r[0]) && !EsEspacio(r[|r| - 1])
  {
    var i := Inicio(s);
    var j := Fin(s, i);
    assert TodoEspacios(s[..i]) && TodoEspacios(s[j..]);
    s[i..j]
  }

  // ------------------------------------------------------ date pattern

  /** The three groups captured by `^(\d{1,2})\/(\d{1,2})\/(\d{4})$`. */
  datatype Grupos = Grupos(dia: string, mes: string, anio: string)

  /** The group shapes the pattern demands. */
  predicate GruposValidos(g: Grupos)
  {
    1 <= |g.dia| <= 2 && 1 <= |g.mes| <= 2 && |g.anio| == 4 &&
    SoloDigitos(g.dia) && SoloDigitos(g.mes) && SoloDigitos(g.anio)
  }

  /** `fecha.match(/^(\d{1,2})\/(\d{1,2})\/(\d{4})$/)`. */
  function CoincideFecha(s: string): (r: Option<Grupos>)
    ensures r.Some? ==> (GruposValidos(r.value) &&
      s == r.value.dia + "/" + r.value.mes + "/" + r.value.anio)
  {
    var partes := Split(s, '/');
    if |partes| == 3 then
      var g := Grupos(partes[0], partes[1], partes[2]);
      assert s == partes[0] + "/" + partes[1] + "/" + partes[2] by {
        assert partes[1..][1..] == [partes[2]];
        assert Unir(partes[1..], '/') == partes[1] + "/" + partes[2];
        assert Unir(partes, '/') == partes[0] + "/" + Unir(partes[1..], '/');
      }
      if GruposValidos(g) then Some(g) else None
    else None
  }

  /** Conversely, every string of the pattern's shape matches, with exactly
      its own groups. */
  lemma CoincideFechaCompleta(g: Grupos)
    requires GruposValidos(g)
    ensures CoincideFecha(g.dia + "/" + g.mes + "/" + g.anio) == Some(g)
  {
    SinSeparadores(g.dia);
    SinSeparadores(g.mes);
    SinSeparadores(g.anio);
    SplitTres(g.dia, g.mes, g.anio, '/');
  }

  /** Numeric value of a string of decimal digits, as `parseInt(s, 10)`
      reads it: a single digit is worth its own value, and
      `ValorDigitosConcat` gives the place value of longer strings. */
  function ValorDigitos(s: string): (n: nat)
    requires SoloDigitos(s)
    ensures n < Potencia10(|s|)
    ensures |s| == 1 ==> n == s[0] as int - '0' as int
  {
    if s == [] then 0
    else
      var ini := s[..|s| - 1];
      ValorDigitos(ini) * 10 + (s[|s| - 1] as int - '0' as int)
  }

  /** Digits followed by more digits: the first ones count `|b|` places
      higher. */
  lemma {:induction false} ValorDigitosConcat(a: string, b: string)
    requires SoloDigitos(a) && SoloDigitos(b)
    ensures SoloDigitos(a + b)
    ensures ValorDigitos(a + b) == ValorDigitos(a) * Potencia10(|b|) + ValorDigitos(b)
  {
    assert SoloDigitos(a + b) by {
      forall k | 0 <= k < |a + b| ensures EsDigito((a + b)[k]) {
        if k < |a| { assert (a + b)[k] == a[k]; } else { assert (a + b)[k] == b[k - |a|]; }
      }
    }
    if b == [] {
      assert a + b == a;
    } else {
      var ini := b[..|b| - 1];
      var u := b[|b| - 1] as int - '0' as int;
      assert SoloDigitos(ini) by {
        forall k | 0 <= k < |ini| ensures EsDigito(ini[k]) {
          assert ini[k] == b[k];
        }
      }
      ValorDigitosConcat(a, ini);
      assert (a + b)[..|a + b| - 1] == a + ini;
      assert (a + b)[|a + b| - 1] == b[|b| - 1];
      UnaCifraMas(ValorDigitos(a), Potencia10(|ini|), ValorDigitos(ini), u);
    }
  }

  /** The place-value step: one more digit `u` after `x * p + y`. */
  lemma UnaCifraMas(x: int, p: int, y: int, u: int)
    ensures (x * p + y) * 10 + u == x * (10 * p) + (y * 10 + u)
  {
  }

  /** Zero-padding to two places (app.js:234) keeps the value, so the
      stored date denotes the day and month that were validated. */
  lemma ValorDigitosRelleno(s: string)
    requires SoloDigitos(s)
    ensures SoloDigitos(Pad2(s))
    ensures ValorDigitos(Pad2(s)) == ValorDigitos(s)
  {
    if |s| < 2 {
      var ceros := Pad2(s)[..2 - |s|];
      assert SoloDigitos(ceros) && ValorDigitos(ceros) == 0 by {
        if |ceros| == 2 {
          assert ceros == "00" && ceros[..1] == "0" && "0"[..0] == "";
        } else if |ceros| == 1 {
          assert ceros == "0" && "0"[..0] == "";
        }
      }
      assert Pad2(s) == ceros + s;
      ValorDigitosConcat(ceros, s);
    }
  }

  function Potencia10(n: nat): (p: nat)
    ensures p >= 1
  {
    if n == 0 then 1 else 10 * Potencia10(n - 1)
  }

  // ---------------------------------------------------- calendar dates

  predicate EsBisiesto(anio: int)
  {
    (anio % 4 == 0 && anio % 100 != 0) || anio % 400 == 0
  }

  function DiasDelMes(mes: int, anio: int): (n: int)
    requires 1 <= mes <= 12
    ensures 28 <= n <= 31
  {
    if mes == 2 then (if EsBisiesto(anio) then 29 else 28)
    else if mes == 4 || mes == 6 || mes == 9 || mes == 11 then 30
    else 31
  }

  /** A year, a month 1..12 and a day 1..31, as a `Date` reports them. */
  datatype FechaCivil = FechaCivil(anio: int, mes: int, dia: int)

  /** A day number outside its month rolls into the previous or following
      months, as the `Date` constructor does; the result is always a real
      date, is the input itself when that is already real, and never lies in
      an earlier year when the day number is positive. */
  function Rodar(anio: int, mes: int, dia: int): (r: FechaCivil)
    requires 1 <= mes <= 12
    ensures 1 <= r.mes <= 12 && 1 <= r.dia <= DiasDelMes(r.mes, r.anio)
    ensures 1 <= dia <= DiasDelMes(mes, anio) ==> r == FechaCivil(anio, mes, dia)
    ensures dia >= 1 ==> r.anio >= anio
    decreases if dia < 1 then 1 - dia else 0, dia
  {
    if dia < 1 then
      var a := if mes == 1 then anio - 1 else anio;
      var m := if mes == 1 then 12 else mes - 1;
      Rodar(a, m, dia + DiasDelMes(m, a))
    else if dia > DiasDelMes(mes, anio) then
      var a := if mes == 12 then anio + 1 else anio;
      var m := if mes == 12 then 1 else mes + 1;
      Rodar(a, m, dia - DiasDelMes(mes, anio))
    else FechaCivil(anio, mes, dia)
  }

  /** `new Date(anio, mes - 1, dia)` read back through `getFullYear`,
      `getMonth() + 1` and `getDate`: years 0..99 mean 1900..1999, and the
      month and day overflow into the following or previous ones. */
  function FechaJs(anio: int, mes: int, dia: int): (r: FechaCivil)
    ensures 1 <= r.mes <= 12 && 1 <= r.dia <= DiasDelMes(r.mes, r.anio)
    ensures 0 <= anio <= 99 && 1 <= mes <= 12 && 1 <= dia <= DiasDelMes(mes, 1900 + anio) ==>
      r == FechaCivil(1900 + anio, mes, dia)
  {
    var a := if 0 <= anio <= 99 then 1900 + anio else anio;
    var m0 := mes - 1;
    Rodar(a + m0 / 12, m0 % 12 + 1, dia)
  }

  /** A real calendar date of the proleptic Gregorian calendar, year 100 on. */
  predicate FechaReal(anio: int, mes: int, dia: int)
  {
    anio >= 100 && 1 <= mes <= 12 && 1 <= dia <= DiasDelMes(mes, anio)
  }

  /** The `Date` round-trip check passes exactly for real dates: an
      impossible day or month is rolled over and so comes back different,
      and a year below 100 comes back as 19xx. */
  lemma FechaJsExacta(anio: nat, mes: int, dia: int)
    ensures FechaJs(anio, mes, dia) == FechaCivil(anio, mes, dia) <==> FechaReal(anio, mes, dia)
  {
    var a := if 0 <= anio <= 99 then 1900 + anio else anio;
    var r := FechaJs(anio, mes, dia);
    if r == FechaCivil(anio, mes, dia) {
      assert 1 <= mes <= 12 && dia >= 1;
      assert (mes - 1) / 12 == 0 && (mes - 1) % 12 + 1 == mes;
      assert r == Rodar(a, mes, dia);
      assert r.anio >= a;
      assert anio >= 100;
    }
  }

  // --------------------------------------------------------- amounts

  /** `s.replace(',', '.')` with a string pattern: only the first comma
      (`ReemplazarEnPrimera`). */
  function ReemplazarPrimera(s: string, de: char, por: char): (r: string)
    ensures |r| == |s|
    ensures de !in s ==> r == s
    ensures forall k :: 0 <= k < |s| && r[k] != s[k] ==> s[k] == de && r[k] == por && de !in s[..k]
  {
    if s == [] then s
    else if s[0] == de then [por] + s[1..]
    else
      var resto := ReemplazarPrimera(s[1..], de, por);
      assert forall k :: 1 <= k < |s| ==> s[..k] == [s[0]] + s[1..][..k - 1];
      [s[0]] + resto
  }

  /** The index of the first `c` in `s`, or `|s|` when there is none. */
  function PrimeraPosicion(s: string, c: char): (i: nat)
    ensures i <= |s|
    ensures forall k :: 0 <= k < i ==> s[k] != c
    ensures i < |s| ==> s[i] == c
  {
    if s == [] || s[0] == c then 0 else 1 + PrimeraPosicion(s[1..], c)
  }

  /** The replacement acts at the first `de` and nowhere else: the result
      is `s` with that one character turned into `por`. */
  lemma {:induction false} ReemplazarEnPrimera(s: string, de: char, por: char)
    ensures PrimeraPosicion(s, de) < |s| ==>
      ReemplazarPrimera(s, de, por) == s[PrimeraPosicion(s, de) := por]
    ensures PrimeraPosicion(s, de) == |s| ==> ReemplazarPrimera(s, de, por) == s
  {
    if s != [] && s[0] != de {
      var t := s[1..];
      ReemplazarEnPrimera(t, de, por);
      assert ReemplazarPrimera(s, de, por) == [s[0]] + ReemplazarPrimera(t, de, por);
      assert PrimeraPosicion(s, de) == 1 + PrimeraPosicion(t, de);
      var i := PrimeraPosicion(t, de);
      if i < |t| {
        assert s[i + 1 := por] == [s[0]] + t[i := por];
      } else {
        assert s == [s[0]] + t;
      }
    }
  }

  // ------------------------------------------------------ validation

  datatype ErrorEntrada = CamposVacios | FormatoFecha | FechaNoValida | CantidadNoValida

  datatype Validacion = Valida(borrador: Movimiento) | Rechazada(motivo: ErrorEntrada)

  /** The day, month and year numbers of matched groups. */
  function Numeros(g: Grupos): (int, int, int)
    requires GruposValidos(g)
  {
    (ValorDigitos(g.anio), ValorDigitos(g.mes), ValorDigitos(g.dia))
  }

  /** The validation part of `guardarMovimiento`. The amount parser
      `Number(...)` with its `isFinite` test is the parameter `aNumero`:
      `None` for a value that is not finite. The draft carries no id yet
      (the store assigns it). */
  function ValidarEntrada(fechaEntrada: string, asuntoEntrada: string, tipo: string,
                          cantidadEntrada: string, aNumero: string -> Option<real>): (v: Validacion)
    ensures v.Valida? ==> EsFechaMostrar(v.borrador.fecha)
  {
    var fecha := Recortar(fechaEntrada);
    var asunto := Recortar(asuntoEntrada);
    var cantidadStr := Recortar(cantidadEntrada);
    if fecha == "" || asunto == "" || tipo == "" || cantidadStr == "" then Rechazada(CamposVacios)
    else
      match CoincideFecha(fecha)
      case None => Rechazada(FormatoFecha)
      case Some(g) =>
        var (anio, mes, dia) := Numeros(g);
        FechaJsExacta(anio, mes, dia);
        if FechaJs(anio, mes, dia) != FechaCivil(anio, mes, dia) then Rechazada(FechaNoValida)
        else
          var fechaRellena := Pad2(g.dia) + "/" + Pad2(g.mes) + "/" + g.anio;
          assert EsFechaMostrar(fechaRellena) by { RellenaEsMostrar(g); }
          match aNumero(ReemplazarPrimera(cantidadStr, ',', '.'))
          case None => Rechazada(CantidadNoValida)
          case Some(cantidad) => Valida(Movimiento("", fechaRellena, asunto, tipo, cantidad))
  }

  /** What `ValidarEntrada` answers: every check is passed or the first
      failing one is reported, and an accepted entry has a real, zero-padded
      date and the parsed amount. */
  lemma ValidacionCorrecta(fechaEntrada: string, asuntoEntrada: string, tipo: string,
                           cantidadEntrada: string, aNumero: string -> Option<real>, v: Validacion)
    requires v == ValidarEntrada(fechaEntrada, asuntoEntrada, tipo, cantidadEntrada, aNumero)
    ensures v == Rechazada(CamposVacios) <==>
      TodoEspacios(fechaEntrada) || TodoEspacios(asuntoEntrada) || tipo == "" || TodoEspacios(cantidadEntrada)
    ensures v == Rechazada(FormatoFecha) ==> CoincideFecha(Recortar(fechaEntrada)).None?
    ensures v == Rechazada(FechaNoValida) ==>
      var g := CoincideFecha(Recortar(fechaEntrada));
      g.Some? && var (a, m, d) := Numeros(g.value); !FechaReal(a, m, d)
    ensures v == Rechazada(CantidadNoValida) ==>
      var g := CoincideFecha(Recortar(fechaEntrada));
      g.Some? && (var (a, m, d) := Numeros(g.value); FechaReal(a, m, d)) &&
      aNumero(ReemplazarPrimera(Recortar(cantidadEntrada), ',', '.')).None?
    ensures v.Valida? ==>
      var g := CoincideFecha(Recortar(fechaEntrada));
      g.Some? && (var (a, m, d) := Numeros(g.value); FechaReal(a, m, d)) &&
      v.borrador.fecha == Pad2(g.value.dia) + "/" + Pad2(g.value.mes) + "/" + g.value.anio &&
      EsFechaMostrar(v.borrador.fecha) &&
      v.borrador.asunto == Recortar(asuntoEntrada) && v.borrador.asunto != "" &&
      v.borrador.tipo == tipo && v.borrador.id == "" &&
      aNumero(ReemplazarPrimera(Recortar(cantidadEntrada), ',', '.')) == Some(v.borrador.cantidad)
  {
    var fecha := Recortar(fechaEntrada);
    var asunto := Recortar(asuntoEntrada);
    var cantidadStr := Recortar(cantidadEntrada);
    if fecha == "" || asunto == "" || tipo == "" || cantidadStr == "" {
      assert v == Rechazada(CamposVacios);
    } else {
      assert !TodoEspacios(fechaEntrada) && !TodoEspacios(asuntoEntrada) && !TodoEspacios(cantidadEntrada);
      match CoincideFecha(fecha)
      case None =>
        assert v == Rechazada(FormatoFecha);
      case Some(g) =>
        var (anio, mes, dia) := Numeros(g);
        FechaJsExacta(anio, mes, dia);
        RellenaEsMostrar(g);
    }
  }

  /** The padded date the draft carries has display shape, and its three
      fields denote the very year, month and day that were validated. */
  lemma RellenaEsMostrar(g: Grupos)
    requires GruposValidos(g)
    ensures EsFechaMostrar(Pad2(g.dia) + "/" + Pad2(g.mes) + "/" + g.anio)
    ensures var s := Pad2(g.dia) + "/" + Pad2(g.mes) + "/" + g.anio;
      GruposValidos(Grupos(s[..2], s[3..5], s[6..])) &&
      Numeros(Grupos(s[..2], s[3..5], s[6..])) == Numeros(g)
  {
    var d, m := Pad2(g.dia), Pad2(g.mes);
    var s := d + "/" + m + "/" + g.anio;
    ValorDigitosRelleno(g.dia);
    ValorDigitosRelleno(g.mes);
    assert s[..2] == d && s[3..5] == m && s[6..] == g.anio;
  }

  /** `31/02/2024` is refused as an invalid calendar date. */
  lemma TreintaYUnoDeFebreroRechazado(asunto: string, tipo: string, cantidad: string, aNumero: string -> Option<real>)
    requires !TodoEspacios(asunto) && tipo != "" && !TodoEspacios(cantidad)
    ensures ValidarEntrada("31/02/2024", asunto, tipo, cantidad, aNumero) == Rechazada(FechaNoValida)
  {
    FebreroTreintaYUnoSinEspacios();
    FebreroTreintaYUnoGrupos();
    FebreroTreintaYUnoNumeros();
    FechaIrrealRechazada("31/02/2024", asunto, tipo, cantidad, aNumero);
  }

  /** A filled-in entry whose date has the right pattern but is not a real
      date is refused for that reason, whatever its amount. */
  lemma FechaIrrealRechazada(fecha: string, asunto: string, tipo: string, cantidad: string, aNumero: string -> Option<real>)
    requires !TodoEspacios(fecha) && !TodoEspacios(asunto) && tipo != "" && !TodoEspacios(cantidad)
    requires CoincideFecha(Recortar(fecha)).Some?
    requires var (a, m, d) := Numeros(CoincideFecha(Recortar(fecha)).value); !FechaReal(a, m, d)
    ensures ValidarEntrada(fecha, asunto, tipo, cantidad, aNumero) == Rechazada(FechaNoValida)
  {
    var v := ValidarEntrada(fecha, asunto, tipo, cantidad, aNumero);
    ValidacionCorrecta(fecha, asunto, tipo, cantidad, aNumero, v);
    assert v != Rechazada(CamposVacios);
    assert v != Rechazada(FormatoFecha);
    assert !v.Valida?;
    assert v != Rechazada(CantidadNoValida);
  }

  lemma FebreroTreintaYUnoSinEspacios()
    ensures !TodoEspacios("31/02/2024")
    ensures Recortar("31/02/2024") == "31/02/2024"
  {
    var f := "31/02/2024";
    assert !EsEspacio(f[0]);
    assert Inicio(f) == 0;
    assert Fin(f, 0) == |f|;
  }

  lemma FebreroTreintaYUnoGrupos()
    ensures CoincideFecha("31/02/2024") == Some(Grupos("31", "02", "2024"))
  {
    var g := Grupos("31", "02", "2024");
    assert GruposValidos(g);
    assert "31/02/2024" == g.dia + "/" + g.mes + "/" + g.anio;
    CoincideFechaCompleta(g);
  }

  lemma FebreroTreintaYUnoNumeros()
    ensures GruposValidos(Grupos("31", "02", "2024"))
    ensures Numeros(Grupos("31", "02", "2024")) == (2024, 2, 31)
    ensures !FechaReal(2024, 2, 31)
  {
    assert DiasDelMes(2, 2024) <= 29;
    assert ValorDigitos("31") == 31 by {
      assert "31"[..1] == "3";
      assert "3"[..0] == "";
    }
    assert ValorDigitos("02") == 2 by {
      assert "02"[..1] == "0";
      assert "0"[..0] == "";
    }
    assert ValorDigitos("2024") == 2024 by {
      assert "2024"[..3] == "202";
      assert "202"[..2] == "20";
      assert "20"[..1] == "2";
      assert "2"[..0] == "";
    }
  }

  /** Whether `editandoMovimientoId` is set (null and "" are falsy). */
  predicate Editando(editando: Option<string>)
  {
    editando.Some? && editando.value != ""
  }

  /** `guardarMovimiento` minus the DOM: validate, then modify the entry
      being edited or append a new one under `idNuevo`. A refused entry
      leaves the store untouched. An appended entry keeps its date in
      display shape; a modified one gets it in stored shape. */
  method GuardarMovimiento(g: GestorDatos, editando: Option<string>,
                           fechaEntrada: string, asuntoEntrada: string, tipo: string, cantidadEntrada: string,
                           aNumero: string -> Option<real>, idNuevo: string,
                           fechaHost: string -> Option<string>) returns (v: Validacion)
    requires g.Valid()
    modifies g
    ensures v == ValidarEntrada(fechaEntrada, asuntoEntrada, tipo, cantidadEntrada, aNumero)
    ensures g.Valid()
    ensures v.Rechazada? ==>
      g.movimientos == old(g.movimientos) && g.saldos == old(g.saldos) && g.guardado == old(g.guardado)
    ensures v.Valida? && !Editando(editando) ==>
      g.movimientos == old(g.movimientos) + [v.borrador.(id := idNuevo)] &&
      EsFechaMostrar(g.movimientos[|g.movimientos| - 1].fecha) &&
      g.guardado == Some(Datos(g.movimientos, old(g.saldos)))
    ensures v.Valida? && Editando(editando) && IdLibre(old(g.movimientos), editando.value) ==>
      g.movimientos == old(g.movimientos) && g.saldos == old(g.saldos) && g.guardado == old(g.guardado)
    ensures v.Valida? && Editando(editando) && !IdLibre(old(g.movimientos), editando.value) ==>
      var i := IndiceDe(old(g.movimientos), editando.value);
      g.movimientos == old(g.movimientos)[i := v.borrador.(id := editando.value, fecha := ConvertirDdmmyyyy(v.borrador.fecha))] &&
      EsFechaAlmacen(g.movimientos[i].fecha) &&
      g.guardado == Some(Datos(g.movimientos, old(g.saldos)))
  {
    v := ValidarEntrada(fechaEntrada, asuntoEntrada, tipo, cantidadEntrada, aNumero);
    if v.Valida? {
      GuardarBorrador(g, editando, v.borrador, idNuevo, fechaHost);
    }
  }

  /** The ternary that ends `guardarMovimiento`: a validated draft (its date
      in padded display shape) replaces the entry being edited, or is
      appended under `idNuevo`. */
  method GuardarBorrador(g: GestorDatos, editando: Option<string>, borrador: Movimiento,
                         idNuevo: string, fechaHost: string -> Option<string>)
    requires g.Valid() && EsFechaMostrar(borrador.fecha)
    modifies g
    ensures g.Valid()
    ensures !Editando(editando) ==>
      g.movimientos == old(g.movimientos) + [borrador.(id := idNuevo)] &&
      EsFechaMostrar(g.movimientos[|g.movimientos| - 1].fecha) &&
      g.guardado == Some(Datos(g.movimientos, old(g.saldos)))
    ensures Editando(editando) && IdLibre(old(g.movimientos), editando.value) ==>
      g.movimientos == old(g.movimientos) && g.saldos == old(g.saldos) && g.guardado == old(g.guardado)
    ensures Editando(editando) && !IdLibre(old(g.movimientos), editando.value) ==>
      var i := IndiceDe(old(g.movimientos), editando.value);
      g.movimientos == old(g.movimientos)[i := borrador.(id := editando.value, fecha := ConvertirDdmmyyyy(borrador.fecha))] &&
      EsFechaAlmacen(g.movimientos[i].fecha) &&
      g.guardado == Some(Datos(g.movimientos, old(g.saldos)))
  {
    if Editando(editando) {
      AlmacenarFechaMostrada(borrador.fecha, fechaHost);
      var _ := g.ModificarMovimiento(editando.value, borrador, fechaHost);
    } else {
      // a display-shape date is never empty, so the throwing `new Date()`
      // fallback is not reached
      var _ := g.AgregarMovimiento(borrador, idNuevo);
    }
  }

  /** `formatearFechaParaAlmacenar` turns a padded display date into the
      padded stored date. */
  lemma AlmacenarFechaMostrada(s: string, fechaHost: string -> Option<string>)
    requires EsFechaMostrar(s)
    ensures FormatearParaAlmacenar(s, fechaHost) == ConvertirDdmmyyyy(s)
    ensures EsFechaAlmacen(ConvertirDdmmyyyy(s))
  {
    var d, m, y := s[..2], s[3..5], s[6..];
    FechaMostrarPartes(s);
    AusenteEnTres('-', d, m, y, '/');
    AlmacenarConBarra(s, fechaHost);
    MostrarAlmacenMostrar(s);
  }
}
