/** The three date-string converters of the store and the string operations
    they are built from (`split`, `padStart`, `includes`). Two shapes occur:
    the display shape `dd/mm/yyyy` and the stored shape `yyyy-mm-dd`. */
module Fechas {
  import opened Modelo

  /** Occurrences of `c` in `s`. */
  function Cuenta(s: string, c: char): (n: nat)
    ensures n == 0 <==> c !in s
  {
    if s == [] then 0 else (if s[0] == c then 1 else 0) + Cuenta(s[1..], c)
  }

  /** Inverse of `Split`: the parts glued back with `sep` between them. */
  function Unir(partes: seq<string>, sep: char): string
    requires |partes| >= 1
  {
    if |partes| == 1 then partes[0] else partes[0] + [sep] + Unir(partes[1..], sep)
  }

  /** One step of `Split`: the parts of `c + rest`, built from the parts
      of `rest`, glue back to `c + rest`. */
  lemma UnirPaso(c: char, resto: seq<string>, sep: char)
    requires |resto| >= 1
    ensures c == sep ==> Unir([""] + resto, sep) == [c] + Unir(resto, sep)
    ensures c != sep ==> Unir([[c] + resto[0]] + resto[1..], sep) == [c] + Unir(resto, sep)
  {
    if c == sep {
      assert ([""] + resto)[1..] == resto;
    } else if |resto| > 1 {
      var primera := [c] + resto[0];
      assert ([primera] + resto[1..])[1..] == resto[1..];
      assert Unir([primera] + resto[1..], sep) == primera + [sep] + Unir(resto[1..], sep);
      assert Unir(resto, sep) == resto[0] + [sep] + Unir(resto[1..], sep);
    }
  }

  /** `s.split(sep)` for a one-character separator: one part more than there
      are separators, no part contains `sep`, and gluing the parts back with
      `sep` gives `s` again. */
  function Split(s: string, sep: char): (partes: seq<string>)
    ensures |partes| == Cuenta(s, sep) + 1
    ensures forall k :: 0 <= k < |partes| ==> sep !in partes[k]
    ensures Unir(partes, sep) == s
  {
    if s == [] then [""]
    else
      var resto := Split(s[1..], sep);
      UnirPaso(s[0], resto, sep);
      assert s == [s[0]] + s[1..];
      if s[0] == sep then
        assert forall k :: 1 <= k < |resto| + 1 == |[""] + resto| ==> ([""] + resto)[k] == resto[k - 1];
        [""] + resto
      else
        var primera := [s[0]] + resto[0];
        assert sep !in primera;
        assert forall k :: 1 <= k < |resto| ==> ([primera] + resto[1..])[k] == resto[k];
        [primera] + resto[1..]
  }

  /** Splitting at a separator that follows a separator-free prefix yields
      that prefix and then the split of the rest. */
  lemma {:induction false} SplitTrasPrefijo(a: string, sep: char, t: string)
    requires sep !in a
    ensures Split(a + [sep] + t, sep) == [a] + Split(t, sep)
  {
    if a == [] {
      assert a + [sep] + t == [sep] + t;
      SplitCons(sep, t, sep);
    } else {
      var r := a[1..] + [sep] + t;
      assert a + [sep] + t == [a[0]] + r by {
        assert a == [a[0]] + a[1..];
      }
      SplitTrasPrefijo(a[1..], sep, t);
      SplitCons(a[0], r, sep);
      assert [a[0]] + a[1..] == a;
    }
  }

  /** `Split` of a string with a known first character, one step unfolded. */
  lemma SplitCons(c: char, r: string, sep: char)
    ensures c == sep ==> Split([c] + r, sep) == [""] + Split(r, sep)
    ensures c != sep ==> Split([c] + r, sep) == [[c] + Split(r, sep)[0]] + Split(r, sep)[1..]
  {
    assert ([c] + r)[1..] == r;
  }

  /** The join of three parts contains the separator, and a character
      other than the separator that is absent from the parts is absent from
      the join. */
  lemma AusenteEnTres(c: char, x: string, y: string, z: string, sep: char)
    requires c != sep && c !in x && c !in y && c !in z
    ensures sep in x + [sep] + y + [sep] + z
    ensures c !in x + [sep] + y + [sep] + z
  {
    assert sep in x + [sep];
  }

  /** A string without the separator splits into itself alone. */
  lemma SplitSinSeparador(z: string, sep: char)
    requires sep !in z
    ensures Split(z, sep) == [z]
  {
    var partes := Split(z, sep);
    assert Cuenta(z, sep) == 0;
    assert |partes| == 1;
    assert Unir(partes, sep) == partes[0];
  }

  /** `y + sep + z` splits back into its two parts. */
  lemma SplitDos(y: string, z: string, sep: char)
    requires sep !in y && sep !in z
    ensures Split(y + [sep] + z, sep) == [y, z]
  {
    SplitTrasPrefijo(y, sep, z);
    SplitSinSeparador(z, sep);
  }

  /** `x + sep + y + sep + z` splits back into its three parts. */
  lemma SplitTres(x: string, y: string, z: string, sep: char)
    requires sep !in x && sep !in y && sep !in z
    ensures Split(x + [sep] + y + [sep] + z, sep) == [x, y, z]
  {
    Reagrupar(x, y, z, sep);
    SplitDos(y, z, sep);
    SplitTrasPrefijo(x, sep, y + [sep] + z);
  }

  /** The three-part join, grouped from the right. */
  lemma Reagrupar(x: string, y: string, z: string, sep: char)
    ensures x + [sep] + y + [sep] + z == x + [sep] + (y + [sep] + z)
  {
  }

  /** `s.padStart(2, '0')`. */
  function Pad2(s: string): (r: string)
    ensures |s| >= 2 ==> r == s
    ensures |s| < 2 ==> |r| == 2 && r[2 - |s|..] == s
    ensures forall k :: 0 <= k < |r| - |s| ==> r[k] == '0'
  {
    if |s| >= 2 then s else if |s| == 1 then "0" + s else "00"
  }

  /** Padding adds only `0`s. */
  lemma Pad2SinCaracter(s: string, c: char)
    requires c != '0' && c !in s
    ensures c !in Pad2(s)
  {
  }

  /** `convertirDDMMYYYYaYYYYMMDD`: a string with exactly three `/`-separated
      parts `d/m/y` becomes `y-pad2(m)-pad2(d)`; any other string is returned
      unchanged. */
  function ConvertirDdmmyyyy(s: string): (r: string)
    ensures Cuenta(s, '/') != 2 ==> r == s
  {
    if s == "" then s
    else
      var partes := Split(s, '/');
      if |partes| == 3 then partes[2] + "-" + Pad2(partes[1]) + "-" + Pad2(partes[0])
      else s
  }

  /** `formatearFechaParaMostrar`: a string containing `/` (or the empty
      string) is left alone; one with exactly three `-`-separated parts
      `y-m-d` becomes `pad2(d)/pad2(m)/y`; anything else is unchanged. */
  function FormatearParaMostrar(s: string): (r: string)
    ensures '/' in s ==> r == s
    ensures Cuenta(s, '-') != 2 ==> r == s
  {
    if s == "" then s
    else if '/' in s then s
    else
      var partes := Split(s, '-');
      if |partes| == 3 then Pad2(partes[2]) + "/" + Pad2(partes[1]) + "/" + partes[0]
      else s
  }

  /** `formatearFechaParaAlmacenar`. The host's `Date.parse` route (taken for
      strings of neither shape) is the parameter `fechaHost`: `None` when the
      host cannot parse the string, `Some(t)` with `t` its `yyyy-mm-dd`
      rendering otherwise. */
  function FormatearParaAlmacenar(s: string, fechaHost: string -> Option<string>): (r: string)
    ensures '-' in s && |Split(s, '-')[0]| == 4 ==> r == s
    ensures !('-' in s && |Split(s, '-')[0]| == 4) && '/' in s ==> r == ConvertirDdmmyyyy(s)
    ensures s == "" ==> r == ""
  {
    if s == "" then s
    else if '-' in s && |Split(s, '-')[0]| == 4 then s
    else if '/' in s then ConvertirDdmmyyyy(s)
    else
      match fechaHost(s)
      case Some(t) => t
      case None => s
  }

  /** The stored shape with a two-character month and day, year `y` free of
      both separators. */
  predicate FormaAlmacen(c: string, y: string, m: string, d: string)
  {
    c == y + "-" + m + "-" + d && |m| == 2 && |d| == 2 &&
    '-' !in y && '-' !in m && '-' !in d &&
    '/' !in y && '/' !in m && '/' !in d
  }

  /** The display shape with a two-character day and month. */
  predicate FormaMostrar(s: string, d: string, m: string, y: string)
  {
    s == d + "/" + m + "/" + y && |m| == 2 && |d| == 2 &&
    '-' !in y && '-' !in m && '-' !in d &&
    '/' !in y && '/' !in m && '/' !in d
  }

  /** `convertirDDMMYYYYaYYYYMMDD` on a string of three `/`-free parts. */
  lemma ConvertirPartes(d: string, m: string, y: string)
    requires '/' !in d && '/' !in m && '/' !in y
    ensures ConvertirDdmmyyyy(d + "/" + m + "/" + y) == y + "-" + Pad2(m) + "-" + Pad2(d)
  {
    SplitTres(d, m, y, '/');
  }

  /** `formatearFechaParaMostrar` on a string of three `-`-free parts with no `/`. */
  lemma MostrarPartes(y: string, m: string, d: string)
    requires '-' !in y && '-' !in m && '-' !in d
    requires '/' !in y && '/' !in m && '/' !in d
    ensures FormatearParaMostrar(y + "-" + m + "-" + d) == Pad2(d) + "/" + Pad2(m) + "/" + y
  {
    SplitTres(y, m, d, '-');
    assert '/' !in y + "-" + m + "-" + d;
  }

  /** Display then store gives back a stored date. */
  lemma MostrarLuegoConvertir(c: string, y: string, m: string, d: string)
    requires FormaAlmacen(c, y, m, d)
    ensures FormatearParaMostrar(c) == d + "/" + m + "/" + y
    ensures ConvertirDdmmyyyy(FormatearParaMostrar(c)) == c
  {
    MostrarPartes(y, m, d);
    ConvertirPartes(d, m, y);
  }

  /** `formatearFechaParaAlmacenar` also undoes the display conversion of a
      stored date, whatever the host date parser does. */
  lemma AlmacenarDeshaceMostrar(c: string, y: string, m: string, d: string, fechaHost: string -> Option<string>)
    requires FormaAlmacen(c, y, m, d)
    ensures FormatearParaAlmacenar(FormatearParaMostrar(c), fechaHost) == c
  {
    MostrarLuegoConvertir(c, y, m, d);
    var s := d + "/" + m + "/" + y;
    AusenteEnTres('-', d, m, y, '/');
    AlmacenarConBarra(s, fechaHost);
  }

  /** A string with `/` and no `-` is stored through the `/` converter. */
  lemma AlmacenarConBarra(s: string, fechaHost: string -> Option<string>)
    requires '/' in s && '-' !in s
    ensures FormatearParaAlmacenar(s, fechaHost) == ConvertirDdmmyyyy(s)
  {
  }

  /** Store then display gives back a padded display date. */
  lemma ConvertirLuegoMostrar(s: string, d: string, m: string, y: string)
    requires FormaMostrar(s, d, m, y)
    ensures ConvertirDdmmyyyy(s) == y + "-" + m + "-" + d
    ensures FormatearParaMostrar(ConvertirDdmmyyyy(s)) == s
  {
    ConvertirPartes(d, m, y);
    MostrarPartes(y, m, d);
  }

  /** `formatearFechaParaMostrar` is idempotent: its output either is its
      input or contains `/`, and strings containing `/` are left alone. */
  lemma MostrarIdempotente(s: string)
    ensures FormatearParaMostrar(FormatearParaMostrar(s)) == FormatearParaMostrar(s)
  {
    if s != "" && '/' !in s {
      var partes := Split(s, '-');
      if |partes| == 3 {
        var r := Pad2(partes[2]) + "/" + Pad2(partes[1]) + "/" + partes[0];
        assert r[|Pad2(partes[2])|] == '/';
      }
    }
  }

  /** `convertirDDMMYYYYaYYYYMMDD` is idempotent: a converted string has no
      `/` left. */
  lemma ConvertirIdempotente(s: string)
    ensures ConvertirDdmmyyyy(ConvertirDdmmyyyy(s)) == ConvertirDdmmyyyy(s)
  {
    var r := ConvertirDdmmyyyy(s);
    if r != s {
      var partes := Split(s, '/');
      assert r == partes[2] + "-" + Pad2(partes[1]) + "-" + Pad2(partes[0]);
      Pad2SinCaracter(partes[1], '/');
      Pad2SinCaracter(partes[0], '/');
      assert '/' !in r;
    }
  }

  predicate EsDigito(c: char)
  {
    '0' <= c <= '9'
  }

  predicate SoloDigitos(s: string)
  {
    forall k :: 0 <= k < |s| ==> EsDigito(s[k])
  }

  /** A fully padded stored date `yyyy-mm-dd`. */
  predicate EsFechaAlmacen(c: string)
  {
    |c| == 10 && c[4] == '-' && c[7] == '-' &&
    SoloDigitos(c[..4]) && SoloDigitos(c[5..7]) && SoloDigitos(c[8..])
  }

  /** A fully padded display date `dd/mm/yyyy`. */
  predicate EsFechaMostrar(s: string)
  {
    |s| == 10 && s[2] == '/' && s[5] == '/' &&
    SoloDigitos(s[..2]) && SoloDigitos(s[3..5]) && SoloDigitos(s[6..])
  }

  lemma SinSeparadores(s: string)
    requires SoloDigitos(s)
    ensures '-' !in s && '/' !in s
  {
    forall k | 0 <= k < |s|
      ensures s[k] != '-' && s[k] != '/'
    {
      assert EsDigito(s[k]);
    }
  }

  lemma FechaAlmacenPartes(c: string)
    requires EsFechaAlmacen(c)
    ensures FormaAlmacen(c, c[..4], c[5..7], c[8..])
  {
    SinSeparadores(c[..4]);
    SinSeparadores(c[5..7]);
    SinSeparadores(c[8..]);
    assert c == c[..4] + "-" + c[5..7] + "-" + c[8..];
  }

  lemma FechaMostrarPartes(s: string)
    requires EsFechaMostrar(s)
    ensures FormaMostrar(s, s[..2], s[3..5], s[6..])
  {
    SinSeparadores(s[..2]);
    SinSeparadores(s[3..5]);
    SinSeparadores(s[6..]);
    assert s == s[..2] + "/" + s[3..5] + "/" + s[6..];
  }

  /** Where the parts of a three-part join sit. */
  lemma PartesDeTres(x: string, y: string, z: string, sep: char)
    ensures var j := x + [sep] + y + [sep] + z;
      |j| == |x| + |y| + |z| + 2 && j[|x|] == sep && j[|x| + 1 + |y|] == sep &&
      j[..|x|] == x && j[|x| + 1..|x| + 1 + |y|] == y && j[|x| + |y| + 2..] == z
  {
  }

  /** Round trip of a padded stored date through the display shape. */
  lemma AlmacenMostrarAlmacen(c: string)
    requires EsFechaAlmacen(c)
    ensures '/' in FormatearParaMostrar(c)
    ensures EsFechaMostrar(FormatearParaMostrar(c))
    ensures ConvertirDdmmyyyy(FormatearParaMostrar(c)) == c
  {
    var y, m, d := c[..4], c[5..7], c[8..];
    FechaAlmacenPartes(c);
    MostrarLuegoConvertir(c, y, m, d);
    AusenteEnTres('-', d, m, y, '/');
    PartesDeTres(d, m, y, '/');
  }

  /** Round trip of a padded display date through the stored shape. */
  lemma MostrarAlmacenMostrar(s: string)
    requires EsFechaMostrar(s)
    ensures EsFechaAlmacen(ConvertirDdmmyyyy(s))
    ensures FormatearParaMostrar(ConvertirDdmmyyyy(s)) == s
  {
    var d, m, y := s[..2], s[3..5], s[6..];
    FechaMostrarPartes(s);
    ConvertirLuegoMostrar(s, d, m, y);
    PartesDeTres(y, m, d, '-');
  }
}
