# ContabilidadB ledger core in Dafny

ContabilidadB is a single-page personal ledger. Each movement (`id`,
`fecha`, `asunto`, `tipo`, `cantidad`) belongs to the bank account
(`BANCO`) or to petty cash (`CASH`). The `GestorDatos` store keeps the
movement list together with the derived balances `{ banco, cash, total }`.

This project models three parts of `ContabilidadB/app.js`:

- **The store.** `GestorDatos` becomes a class with the fields
  `movimientos` and `saldos`. Its methods are append, delete by id, replace
  by id, import and export, plus the three date converters between the
  display shape `dd/mm/yyyy` and the stored shape `yyyy-mm-dd`.
- **Entry validation.** This is the checking part of `guardarMovimiento`:
  - trim the date, subject and amount (the type is taken as it is);
  - reject empty ones;
  - require the date pattern;
  - require a real calendar date, using the `Date` round trip;
  - require a finite amount.

  It then zero-pads the date and hands the entry to the store.
- **The filter pipeline.** This is the pipeline of `aplicarFiltros`:
  date-from, date-to, amount-min, amount-max and exact type are AND-ed,
  then the result is sorted newest first.

Modules:

| file | module | contents |
|---|---|---|
| `modelo.dfy` | `Modelo` | the value types and `array.filter` |
| `balances.dfy` | `Balances` | `calcularSaldos` as a function of the list, and its properties |
| `fechas.dfy` | `Fechas` | `split`, `padStart`, and the three date converters with their round trips |
| `gestor.dfy` | `Gestor` | the `GestorDatos` class |
| `formulario.dfy` | `Formulario` | trimming, the date pattern, calendar validity, the validation and `guardarMovimiento` |
| `filtros.dfy` | `Filtros` | string order, the five filters, the stable newest-first sort and `aplicarFiltros` |

How the source is represented:

- **Amounts** are exact reals. `Math.round(x * 100) / 100` is written out
  as `Round2`, which rounds halves up.
- **Number parsers** are function parameters. `Number(...)` with its
  `isFinite` test returns `None` where the source gets NaN or a
  non-finite value. `parseFloat` returns a `Flotante`: NaN, a finite
  value, or either infinity. The amount filters compare against it the
  way JavaScript does, so a maximum of `Infinity` keeps every entry.
- **Ids** from `Date.now()` are method parameters.
- **An entry without a date.** `agregarMovimiento` throws on such an
  entry, before it appends or saves anything. The model answers `None`
  and leaves the store untouched. The entry form never sends an empty
  date.
- **Persistence.** Writing to browser storage is kept as the ghost field
  `guardado`. It holds the last record written, including the balances
  before they were recomputed.
- **Date strings** keep the asymmetry of the code:
  - appending stores a date as it is given, and the entry form gives
    `dd/mm/yyyy`;
  - modifying converts the date to `yyyy-mm-dd`.

  `Filtros.FechaMostradaFueraDeRango` shows one consequence: a
  form-entered `25/12/2023` fails the date-to bound `2023-12-31`.

## Model

| member | source | states |
|---|---|---|
| Modelo.Filtrar | ContabilidadB/app.js:302-312 | `filter` keeps only elements that pass the test. It keeps every element that passes, and keeps no element more often than it occurs. |
| Modelo.FiltrarCuenta | ContabilidadB/app.js:302-312 | An element that passes is kept exactly as often as it occurs in the input; an element that fails is not kept. |
| Modelo.FiltrarCuentas | ContabilidadB/app.js:302-312 | The same, for every element at once: the result's multiset is the input's restricted to passing elements. |
| Modelo.FiltrarDosVeces | ContabilidadB/app.js:302-312 | Two filters in a row keep exactly what their conjunction keeps. |
| Modelo.FiltrarConcat | ContabilidadB/app.js:302-312 | Filtering distributes over concatenation, so survivors keep their relative order. |
| Balances.Round2 | ContabilidadB/app.js:27-29 | `Math.round(x*100)/100` is a whole number of cents within half a cent of `x`. The lower end is inclusive because halves round up. Together these fix the result. |
| Balances.Round2Centimos | ContabilidadB/app.js:27-29 | Rounding leaves a whole number of cents unchanged. |
| Balances.DelTipo | ContabilidadB/app.js:24-25 | The per-account `filter` keeps only movements of that account, all taken from the list. |
| Balances.DelTipoCuenta | ContabilidadB/app.js:24-25 | Every movement of the account is kept exactly as often as it occurs, and no movement of another account is kept. |
| Balances.DelTipoConcat | ContabilidadB/app.js:24-25 | The per-account filter distributes over concatenation, so the kept movements keep their order. |
| Balances.SumaCantidades | ContabilidadB/app.js:24-25 | The `reduce` sum is 0 for no movements and the amount itself for one. |
| Balances.SumaConcat | ContabilidadB/app.js:24-25 | The sum is additive over concatenated lists. With the empty and one-movement cases, this determines the sum of every list. |
| Balances.SaldosDe | ContabilidadB/app.js:23-31 | `banco` and `cash` are each the rounded sum of their own account. `total` is the rounded sum of the two UNROUNDED sums. |
| Balances.SumaTipoConcat | ContabilidadB/app.js:24-25 | An account sum is additive over concatenated movement lists. |
| Balances.SumaTipoAnadir | ContabilidadB/app.js:24-25 | Appending a movement adds its amount to its own account's sum and to no other. |
| Balances.OtrosTiposIgnorados | ContabilidadB/app.js:24-29 | Appending a movement whose `tipo` is neither BANCO nor CASH leaves the balances unchanged. |
| Balances.SumasSoloBancoYCash | ContabilidadB/app.js:24-25 | Each account sum is the same over the BANCO and CASH movements alone. |
| Balances.SoloCuentanBancoYCash | ContabilidadB/app.js:23-31 | The balances of a list equal the balances of its BANCO and CASH movements. |
| Balances.MedioCentimoSube | ContabilidadB/app.js:27-29 | Half a cent rounds up to a cent. |
| Balances.SumasDeDos | ContabilidadB/app.js:24-25 | With one BANCO and one CASH movement, each account sum is that movement's amount. |
| Balances.TotalDistintoDeLaSuma | ContabilidadB/app.js:27-29 | Half a cent in each account gives `banco` = `cash` = `total` = 0.01. So `total` need not be `banco + cash`. |
| Balances.TotalEsSumaEnCentimos | ContabilidadB/app.js:24-29 | When every amount is whole cents, `banco` is the exact bank sum and `total` = `banco + cash`. |
| Fechas.Cuenta | ContabilidadB/app.js:100 | The count of a character is zero exactly when `includes` is false. |
| Fechas.Split | ContabilidadB/app.js:89 | `split` yields one part more than there are separators. No part contains the separator, and joining the parts gives the input back. |
| Fechas.SplitSinSeparador | ContabilidadB/app.js:89 | A string without the separator splits into itself alone. |
| Fechas.SplitTrasPrefijo | ContabilidadB/app.js:89 | A separator-free prefix followed by the separator becomes the first part, followed by the parts of the rest. |
| Fechas.SplitDos | ContabilidadB/app.js:89 | `y/z` with separator-free parts splits into exactly `[y, z]`. |
| Fechas.SplitTres | ContabilidadB/app.js:89-91 | `d/m/y` with separator-free parts splits into exactly `[d, m, y]`. |
| Fechas.Pad2 | ContabilidadB/app.js:92 | `padStart(2,'0')` leaves two or more characters alone. Otherwise it left-fills with `0` to length 2, ending in the input. |
| Fechas.ConvertirDdmmyyyy | ContabilidadB/app.js:87-95 | A string without exactly two `/` comes back unchanged. |
| Fechas.ConvertirPartes | ContabilidadB/app.js:87-95 | `d/m/y` with `/`-free parts becomes `y-pad2(m)-pad2(d)`. |
| Fechas.ConvertirIdempotente | ContabilidadB/app.js:87-95 | Converting twice is converting once. |
| Fechas.FormatearParaMostrar | ContabilidadB/app.js:98-110 | A string containing `/`, or without exactly two `-`, is left unchanged. |
| Fechas.MostrarPartes | ContabilidadB/app.js:98-110 | `y-m-d` with separator-free parts becomes `pad2(d)/pad2(m)/y`. |
| Fechas.MostrarIdempotente | ContabilidadB/app.js:98-110 | Formatting for display twice is formatting once. |
| Fechas.FormatearParaAlmacenar | ContabilidadB/app.js:113-136 | Returns the input when it has `-` and a 4-character first `-` segment; otherwise, with a `/`, the converted string; the empty string stays empty. |
| Fechas.AlmacenarConBarra | ContabilidadB/app.js:117-124 | A string with `/` and no `-` is stored through the `/` converter. |
| Fechas.MostrarLuegoConvertir | ContabilidadB/app.js:87-110 | A stored date with 2-character month and day shows as `d/m/y` and converts back to itself. |
| Fechas.AlmacenarDeshaceMostrar | ContabilidadB/app.js:98-124 | `formatearFechaParaAlmacenar` also undoes the display conversion of such a date, whatever the host date parser does. |
| Fechas.ConvertirLuegoMostrar | ContabilidadB/app.js:87-110 | A display date with 2-character day and month converts to `y-m-d` and displays back as itself. |
| Fechas.AlmacenMostrarAlmacen | ContabilidadB/app.js:87-110 | A padded `yyyy-mm-dd` date displays as a padded `dd/mm/yyyy` date and converts back to itself. |
| Fechas.MostrarAlmacenMostrar | ContabilidadB/app.js:87-110 | A padded `dd/mm/yyyy` date converts to a padded stored date and displays back as itself. |
| Gestor.SinId | ContabilidadB/app.js:42 | Delete by id keeps exactly the movements with another id, and none with this id remains. An unknown id changes nothing. |
| Gestor.SinIdConcat | ContabilidadB/app.js:42 | Deleting distributes over concatenation, so the remaining entries keep their order. |
| Gestor.AnadirLuegoEliminar | ContabilidadB/app.js:33-44 | Appending an entry with a fresh id and then deleting that id restores the previous list in order. |
| Gestor.IndiceDe | ContabilidadB/app.js:47 | `findIndex` is -1 exactly when the id is absent. Otherwise it is the first index holding the id. |
| Gestor.FechaImportada | ContabilidadB/app.js:63-67 | Import rewrites only the date, and only a date containing `/`. A padded `dd/mm/yyyy` date becomes a padded `yyyy-mm-dd` date. |
| Gestor.FechaExportada | ContabilidadB/app.js:80-82 | Export rewrites only the date, and leaves a date containing `/` alone. A padded `yyyy-mm-dd` date becomes a padded `dd/mm/yyyy` date. |
| Gestor.ImportarFechas | ContabilidadB/app.js:62-68 | The imported list has the parsed list's length. Every movement keeps its id, subject, type and amount, and every padded `dd/mm/yyyy` date becomes a padded `yyyy-mm-dd` date. |
| Gestor.ExportarFechas | ContabilidadB/app.js:80-82 | The exported list has the store's length. Every movement keeps its id, subject, type and amount, and every padded `yyyy-mm-dd` date becomes a padded `dd/mm/yyyy` date. |
| Gestor.ExportarLuegoImportar | ContabilidadB/app.js:58-84 | When every date is a padded stored date or contains `/`, export followed by import equals import alone. |
| Gestor.ExportarImportarIdentidad | ContabilidadB/app.js:58-84 | A list whose dates are all padded stored dates survives export followed by import unchanged. |
| Gestor.ConvertirFechasImportadas | ContabilidadB/app.js:62-68 | The in-place `forEach` over the parsed movements ends with every movement rewritten as import prescribes, in order. |
| Gestor.ConvertirFechasExportadas | ContabilidadB/app.js:80-82 | The in-place `forEach` over the copied movements ends with every date formatted for display, in order. |
| Gestor.GestorDatos.constructor | ContabilidadB/app.js:7-15 | The store loads the stored record or starts empty, with balances derived from the loaded movements. |
| Gestor.GestorDatos.CalcularSaldos | ContabilidadB/app.js:23-31 | Overwrites `saldos` with the per-account rounded sums and the rounded total of the unrounded sums. The list is not touched. |
| Gestor.GestorDatos.GuardarDatos | ContabilidadB/app.js:17-21 | Saves the record with the balances as they were, then recomputes them. Returns the record. |
| Gestor.GestorDatos.AgregarMovimiento | ContabilidadB/app.js:33-39 | An entry with a date is appended at the end with the given id and its date kept verbatim; earlier entries are unchanged, and the store is saved and recomputed. An entry without a date throws (app.js:36, 117): nothing is appended or saved. |
| Gestor.GestorDatos.EliminarMovimiento | ContabilidadB/app.js:41-44 | The list becomes the list without that id, and is saved and recomputed. |
| Gestor.GestorDatos.ModificarMovimiento | ContabilidadB/app.js:46-56 | An absent id changes nothing and saves nothing. A present id replaces only the first matching index, with the id set and the date in stored shape, then saves. |
| Gestor.GestorDatos.ImportarDatos | ContabilidadB/app.js:58-75 | A parse failure returns false and touches nothing. Otherwise it returns true and replaces the list by the parsed one with `/` dates converted. The parsed balances are saved before recomputing. |
| Gestor.GestorDatos.ExportarDatos | ContabilidadB/app.js:77-84 | Returns the record with every date formatted for display. The store is not changed. |
| Gestor.AgregarYEliminar | ContabilidadB/app.js:33-44 | Adding under a fresh id and deleting that id restores both the list and the balances. |
| Formulario.Inicio | ContabilidadB/app.js:206 | The leading run of white space that `trim` drops. |
| Formulario.Fin | ContabilidadB/app.js:206 | The trailing run of white space that `trim` drops. |
| Formulario.Recortar | ContabilidadB/app.js:206-209 | `trim` is a slice of the input with only white space cut from either end. It is empty exactly for all-white-space input, and otherwise starts and ends with a non-space. |
| Formulario.CoincideFecha | ContabilidadB/app.js:218-219 | A match has groups of 1-2, 1-2 and 4 digits that rebuild the input with `/`. |
| Formulario.CoincideFechaCompleta | ContabilidadB/app.js:218-219 | Every string of the pattern's shape matches, with exactly its own groups. |
| Formulario.ValorDigitos | ContabilidadB/app.js:225-231 | The number a digit group is compared as: a single digit is worth its own value, and the value is below `10^length`. |
| Formulario.ValorDigitosConcat | ContabilidadB/app.js:225-231 | Place value: digits followed by n more digits count n places higher, so the string `a + b` is worth `a * 10^n + b`, where n is the length of `b`. |
| Formulario.ValorDigitosRelleno | ContabilidadB/app.js:234 | Zero-padding a digit group to two places keeps its value. |
| Formulario.DiasDelMes | ContabilidadB/app.js:227-228 | Every month has 28 to 31 days. |
| Formulario.FechaJs | ContabilidadB/app.js:227-228 | What `new Date(anio, mes - 1, dia)` reports is always a real day of a real month. A real date with a year 0-99 comes back in 1900-1999. |
| Formulario.Rodar | ContabilidadB/app.js:227 | `Date` rolls an out-of-range day into a real date. A day already in range is kept. A positive day never moves to an earlier year. |
| Formulario.FechaJsExacta | ContabilidadB/app.js:227-231 | The `Date` round trip returns the same year, month and day exactly for real Gregorian dates from year 100 on. |
| Formulario.ReemplazarPrimera | ContabilidadB/app.js:236 | `replace(',', '.')` keeps the length, leaves a string without a comma alone, and changes nothing but the first comma, to `.`. |
| Formulario.PrimeraPosicion | ContabilidadB/app.js:236 | The index of the first occurrence of a character, or the length when there is none. |
| Formulario.ReemplazarEnPrimera | ContabilidadB/app.js:236 | The replacement is exactly the input with its first comma, if any, turned into `.`. |
| Formulario.ValidarEntrada | ContabilidadB/app.js:205-242 | An accepted draft has a padded `dd/mm/yyyy` date. |
| Formulario.ValidacionCorrecta | ContabilidadB/app.js:205-242 | Empty fields iff an all-space input or empty type. A pattern failure means no match. An invalid date means matched but not real. A bad amount means the date passed and `Number` gave no finite value. On success: a real date re-emitted zero-padded as `dd/mm/yyyy`, the trimmed subject, the parsed amount. |
| Formulario.RellenaEsMostrar | ContabilidadB/app.js:225-234 | Zero-padding the matched groups gives a padded `dd/mm/yyyy` date. Its day, month and year fields denote the numbers that were validated. |
| Formulario.FechaIrrealRechazada | ContabilidadB/app.js:226-231 | A filled-in entry that matches the pattern but is not a real date is rejected for that reason, whatever its amount. |
| Formulario.TreintaYUnoDeFebreroRechazado | ContabilidadB/app.js:226-231 | `31/02/2024` is rejected as an invalid date. |
| Formulario.GuardarMovimiento | ContabilidadB/app.js:205-246 | Returns the validation's answer. A rejection leaves the store, balances and saved record untouched. A new entry is appended with its date in `dd/mm/yyyy`. An edit replaces the first entry with that id, with its date in `yyyy-mm-dd`. Both save the new list with the earlier balances. An edit of an absent id changes nothing and saves nothing. |
| Formulario.GuardarBorrador | ContabilidadB/app.js:242-246 | A validated draft is appended under the new id with its display date, or replaces the first entry with the edited id with its date in stored shape. Both save the new list with the earlier balances. An edit of an absent id changes nothing and saves nothing. |
| Formulario.AlmacenarFechaMostrada | ContabilidadB/app.js:113-124 | `formatearFechaParaAlmacenar` turns a padded display date into a padded stored date. |
| Filtros.MenorIgual | ContabilidadB/app.js:304-308 | JS string `<=`: a prefix is `<=` any string it starts. |
| Filtros.MenorIgualLexicografico | ContabilidadB/app.js:304-308 | `a <= b` exactly when `a` is a prefix of `b` or has the smaller character at the first place where they differ. |
| Filtros.MenorIgualReflexiva | ContabilidadB/app.js:304 | Every string is `<=` itself. |
| Filtros.MenorIgualTotal | ContabilidadB/app.js:304-308 | JS string order is total. |
| Filtros.MenorIgualTransitiva | ContabilidadB/app.js:304-308 | JS string order is transitive. |
| Filtros.AlMenos | ContabilidadB/app.js:310 | `m.cantidad >= parseFloat(...)` fails against NaN and `Infinity`, and holds against `-Infinity`. |
| Filtros.ComoMucho | ContabilidadB/app.js:311 | `m.cantidad <= parseFloat(...)` fails against NaN and `-Infinity`, and holds against `Infinity`. |
| Filtros.LimitesDeCantidad | ContabilidadB/app.js:310-311 | NaN fails both amount tests, and any number passes at least one. Both pass exactly when the bound equals the amount. A larger amount still meets a minimum, and a smaller one still meets a maximum. |
| Filtros.Cumple | ContabilidadB/app.js:302-312 | A date bound without `/` is compared as it stands. A non-numeric amount bound rejects every entry. The type test is exact equality. |
| Filtros.EtapaCadaFiltro | ContabilidadB/app.js:302-312 | The first n filters hold exactly when each of them holds. |
| Filtros.PasaCadaFiltro | ContabilidadB/app.js:302-312 | A movement passes exactly when each of the five filters is unused or satisfied. |
| Filtros.PasoActivo | ContabilidadB/app.js:302-312 | Applying a filled-in filter to the survivors of the earlier ones leaves the survivors of one more filter. |
| Filtros.PasoInactivo | ContabilidadB/app.js:302-312 | An empty filter field lets everything through. |
| Filtros.Insertar | ContabilidadB/app.js:315 | Inserting into a newest-first list keeps it newest-first and adds exactly that entry. |
| Filtros.OrdenarPorFecha | ContabilidadB/app.js:315 | The sort returns a permutation of its input, newest first. |
| Filtros.InsertarEstable | ContabilidadB/app.js:315 | Insertion keeps the relative order of entries with equal dates. |
| Filtros.OrdenarEstable | ContabilidadB/app.js:315 | The sort is stable: entries with the same date keep their relative order. |
| Filtros.DescendenteGlobal | ContabilidadB/app.js:315 | Every earlier entry of the result is no older than every later one. |
| Filtros.Seleccion | ContabilidadB/app.js:299-315 | What `aplicarFiltros` shows: no longer than its input, every entry passes every filter in use, newest first. |
| Filtros.SeleccionCuenta | ContabilidadB/app.js:299-315 | An entry that passes every filter in use appears in the result as often as in the list; any other entry does not appear. |
| Filtros.SeleccionCorrecta | ContabilidadB/app.js:299-315 | The result holds each passing entry exactly as often as the list does, and nothing else. It is newest first. With no filters it is the whole list, sorted. |
| Filtros.SinFiltrosTodoPasa | ContabilidadB/app.js:302-312 | With every filter field empty, filtering keeps the whole list. |
| Filtros.AplicarFiltro | ContabilidadB/app.js:302-312 | One `if (field) movs = movs.filter(...)` step takes the survivors of the first n filters to those of the first n+1. |
| Filtros.AplicarFiltros | ContabilidadB/app.js:299-315 | Returns the sorted selection of the input list. The input is a value and is never changed. |
| Filtros.HastaSinBarras | ContabilidadB/app.js:306-308 | A filled-in date-to bound without `/` is used as it stands: an entry passes that filter exactly when its date string is `<=` the bound. |
| Filtros.MostradaMayor | ContabilidadB/app.js:308 | `25/12/2023` is not `<=` `2023-12-31` as strings. |
| Filtros.FueraDeHasta | ContabilidadB/app.js:306-308 | An entry dated later (as a string) than a filled-in date-to bound does not pass. |
| Filtros.FechaMostradaFueraDeRango | ContabilidadB/app.js:306-308 | An entry stored in display shape, `25/12/2023`, fails the date-to bound `2023-12-31`. |

## Left out

- Storage. The `localStorage` read and write are not modelled. Only the
  saved record is kept, as the ghost field `guardado`. The constructor
  takes the already-parsed stored record as a parameter.
- JSON. `JSON.parse` and `JSON.stringify` are not modelled: import takes
  the parse outcome as `Option<Datos>`, and export returns the record
  instead of its text.
  - A corrupt stored record makes `JSON.parse` throw in the constructor,
    and that failure is not modelled.
  - A parsed import without `movimientos` makes `calcularSaldos` throw
    after `this.datos` was already replaced. That case is not modelled
    either: the parsed value is always a well-formed record.
  - Parsed movements with missing or non-string fields are not modelled.
- Floating point. Amounts, sums and `Math.round` are exact reals, so float
  addition error is not modelled. `Number` and `parseFloat` are abstract
  parameters, and so is the `isFinite` test.
- Host date parsing. The `Date.parse` and `new Date(...)` branch of
  `formatearFechaParaAlmacenar` is the parameter `fechaHost`, so its time
  zone and host-dependent parsing are not modelled.
- Clock. `Date.now()` ids are parameters.
- Gestor.GestorDatos.AgregarMovimiento: on an entry without a date the
  source calls `formatearFechaParaAlmacenar(new Date())`, whose
  `includes` call throws a TypeError (app.js:36, 117). The model shows the
  throw as a `None` answer with the store untouched. The TypeError itself
  is not modelled. Neither is the id already written onto the caller's
  object (app.js:34), because movements are values here.
- The validation's `new Date(anio, mes - 1, dia)`. It is modelled as a
  proleptic Gregorian roll-over, with years 0-99 read as 1900-1999. Time
  zones and the `Date` range limit (±8.64e15 ms) are not modelled.
- Filtros.OrdenarPorFecha: does not model the `new Date(b.fecha) - new
  Date(a.fecha)` comparator, because it depends on host date parsing. For
  `dd/mm/yyyy` strings it gives NaN, or reads the date month first. The sort is instead a stable
  descending order on the date strings. It agrees with the source's order
  on padded `yyyy-mm-dd` strings of real dates. An impossible padded
  date such as `2023-02-30` can arrive by import; `new Date` gives NaN or
  rolls it over, and the orders may then differ.
- The sorts after saving and deleting (app.js:249, 272) are not modelled.
  They sort the record that the store returned, which is the store's own
  `this.datos` (app.js:20). So in the source, after every save from the
  entry form and every delete, the store's list is reordered in place by
  the `Date` comparator. In the model the store's `movimientos` stay in
  insertion order. The same holds at start-up (app.js:147), after an
  import (app.js:402), and in `limpiarFiltros` (app.js:328).
- `actualizarTablaYDom` is not modelled. It is not only rendering:
  - it sorts the list it is given in place (app.js:166). It is given the
    store's own record at app.js:157, 250, 273, 329 and 404, so that
    reorders the store's list too;
  - it sets `todosLosMovimientos` to the list it shows (app.js:202).
- DOM and rendering are not modelled:
  - `actualizarTablaYDom`, `limpiarFormulario`, `iniciarModificacion`,
    `limpiarFiltros`;
  - `alert` and `confirm`;
  - the export window, Blob and URL code;
  - the asynchronous `FileReader` import.

  Apart from the sorts and the shown list described above, these only
  move data between the page and the operations modelled here.
- Filtros.AplicarFiltros: its `todos` argument stands for
  `todosLosMovimientos`, which is the list last shown (app.js:202, 299),
  not always the whole ledger. After one filtering, a second
  `aplicarFiltros` filters the previous result. For example, after
  filtering BANCO, filtering CASH shows nothing. The model does not track
  which list was shown last; `todos` is whatever that list was.
- Strings. JS compares and pads UTF-16 code units, while this model uses
  Dafny characters. `trim`'s white-space set is listed explicitly.
- The five sequential `if`s of `aplicarFiltros` are written as a loop over
  the filters in the same order. Each step is one `AplicarFiltro` that
  tests that filter's field.
- The entry form's type field is only checked to be non-empty, as in the
  code. The code does not restrict it to BANCO or CASH.
