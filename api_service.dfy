/** The catalog client (`FipeAPI` in code_lambdas/src/fipe_api/fipe_api_service.py):
    the month label of a reference period, the choice of the reference table,
    the parsing of the year/fuel listing, chunking, and the batched queue send.
    The HTTP requests and the queue client are oracles supplied by the caller. */
module ApiService {
  import opened Wrappers
  import opened Text
  import opened Json

  // ---------------------------------------------------------------------------
  // mes_ano_formatado

  /** Portuguese month names, January first. */
  const MonthNames: seq<string> :=
    ["janeiro", "fevereiro", "março", "abril", "maio", "junho",
     "julho", "agosto", "setembro", "outubro", "novembro", "dezembro"]

  /** `"<month name>/<year>"`, or ValueError for a month outside 1..12. */
  function MesAnoFormatado(mes: int, ano: int): (r: Result<string>)
    ensures r.Raised? <==> mes < 1 || mes > 12
    ensures r.Raised? ==> r.exc == ValueError
  {
    if mes < 1 || mes > 12 then Raised(ValueError)
    else Ok(MonthNames[mes - 1] + "/" + IntToString(ano))
  }

  /** The label splits at its one `/` into the month's name and the printed year. */
  lemma MesAnoFormatadoParts(mes: int, ano: int)
    requires 1 <= mes <= 12
    ensures Split(MesAnoFormatado(mes, ano).value, '/') == [MonthNames[mes - 1], IntToString(ano)]
  {
    var year := IntToString(ano);
    var n: nat := if ano < 0 then -ano else ano;
    NatToStringRoundTrip(n);
    assert '/' !in year by {
      if ano < 0 {
        assert year == "-" + NatToString(n);
        assert forall k :: 0 <= k < |year| ==> year[k] == '-' || IsDigit(year[k]);
      } else {
        assert forall k :: 0 <= k < |year| ==> IsDigit(year[k]);
      }
    }
    assert '/' !in MonthNames[mes - 1];
    SplitAtFirst(MonthNames[mes - 1], '/', year);
    SplitWithoutSeparator(year, '/');
  }

  /** The label is already lower case, so `lower()` leaves it unchanged. */
  lemma MesAnoFormatadoIsLower(mes: int, ano: int)
    requires 1 <= mes <= 12
    ensures IsLower(MesAnoFormatado(mes, ano).value) && Lower(MesAnoFormatado(mes, ano).value) == MesAnoFormatado(mes, ano).value
  {
    var name, year := MonthNames[mes - 1], IntToString(ano);
    var n: nat := if ano < 0 then -ano else ano;
    NatToStringRoundTrip(n);
    assert IsLower(year) by {
      if ano < 0 {
        assert year == "-" + NatToString(n);
      }
    }
    assert IsLower(name) by {
      forall k | 0 <= k < |name| ensures LowerChar(name[k]) == name[k] {
        assert 'a' <= name[k] <= 'z' || name[k] == 'ç';
      }
    }
    var printed := name + "/" + year;
    assert IsLower(printed) by {
      forall k | 0 <= k < |printed| ensures LowerChar(printed[k]) == printed[k] {
        if k < |name| {
          assert printed[k] == name[k];
        } else if k > |name| {
          assert printed[k] == year[k - |name| - 1];
        }
      }
    }
    LowerIdempotent(printed);
  }

  /** Different periods get different labels, so a label names one period. */
  lemma MesAnoFormatadoInjective(m1: int, a1: int, m2: int, a2: int)
    requires MesAnoFormatado(m1, a1).Ok? && MesAnoFormatado(m2, a2).Ok?
    requires MesAnoFormatado(m1, a1) == MesAnoFormatado(m2, a2)
    ensures m1 == m2 && a1 == a2
  {
    MesAnoFormatadoParts(m1, a1);
    MesAnoFormatadoParts(m2, a2);
    assert [MonthNames[m1 - 1], IntToString(a1)] == [MonthNames[m2 - 1], IntToString(a2)];
    MonthNamesDistinct(m1 - 1, m2 - 1);
    IntToStringInjective(a1, a2);
  }

  /** No two months share a name. */
  lemma MonthNamesDistinct(i: int, j: int)
    requires 0 <= i < 12 && 0 <= j < 12 && MonthNames[i] == MonthNames[j]
    ensures i == j
  {
  }

  // ---------------------------------------------------------------------------
  // get_reference_table and the client's constructor

  /** One entry of the ConsultarTabelaDeReferencia reply (`Codigo`, `Mes`). */
  type Table = Object

  /** `str(table["Mes"]).strip().lower() == database.lower()`; KeyError without `Mes`. */
  function MonthMatches(t: Table, wanted: string): Result<bool> {
    if "Mes" !in t then Raised(KeyError)
    else Ok(Lower(Strip(PyStr(t["Mes"]))) == Lower(wanted))
  }

  /** Table `k` is the first that matches `wanted`, every earlier one having a
      `Mes` that does not. */
  ghost predicate IsFirstMatch(tables: seq<Table>, k: int, wanted: string) {
    0 <= k < |tables| && MonthMatches(tables[k], wanted) == Ok(true)
    && forall j :: 0 <= j < k ==> MonthMatches(tables[j], wanted) == Ok(false)
  }

  /** The loop over the reference tables: the first match, None when the loop
      falls through, KeyError when a table without `Mes` is reached first. */
  function FirstMatching(tables: seq<Table>, wanted: string): (r: Result<Option<Table>>)
    ensures r == Ok(None) <==> forall k :: 0 <= k < |tables| ==> MonthMatches(tables[k], wanted) == Ok(false)
  {
    if tables == [] then Ok(None)
    else
      match MonthMatches(tables[0], wanted)
      case Raised(e) => Raised(e)
      case Ok(hit) => if hit then Ok(Some(tables[0])) else FirstMatching(tables[1..], wanted)
  }

  /** A table is returned only when it is the first match. */
  lemma {:induction false} FirstMatchingIsFirst(tables: seq<Table>, wanted: string)
    ensures var r := FirstMatching(tables, wanted);
            r.Ok? && r.value.Some? ==> exists k :: IsFirstMatch(tables, k, wanted) && r.value.value == tables[k]
  {
    if tables != [] && MonthMatches(tables[0], wanted) == Ok(false) {
      var rest := FirstMatching(tables[1..], wanted);
      FirstMatchingIsFirst(tables[1..], wanted);
      if rest.Ok? && rest.value.Some? {
        var k :| IsFirstMatch(tables[1..], k, wanted) && rest.value.value == tables[1..][k];
        assert IsFirstMatch(tables, k + 1, wanted);
      }
    } else if tables != [] && MonthMatches(tables[0], wanted) == Ok(true) {
      assert IsFirstMatch(tables, 0, wanted);
    }
  }

  /** The first match is what the loop returns. */
  lemma {:induction false} FirstMatchFound(tables: seq<Table>, k: int, wanted: string)
    requires IsFirstMatch(tables, k, wanted)
    ensures FirstMatching(tables, wanted) == Ok(Some(tables[k]))
  {
    if k > 0 {
      assert MonthMatches(tables[0], wanted) == Ok(false);
      assert IsFirstMatch(tables[1..], k - 1, wanted) by {
        forall j | 0 <= j < k - 1 ensures MonthMatches(tables[1..][j], wanted) == Ok(false) {
          assert tables[1..][j] == tables[j + 1];
        }
      }
      FirstMatchFound(tables[1..], k - 1, wanted);
    }
  }

  /** An exception is the KeyError of a table without `Mes` met before any match. */
  lemma {:induction false} FirstMatchingRaises(tables: seq<Table>, wanted: string)
    ensures var r := FirstMatching(tables, wanted);
            r.Raised? ==>
              r.exc == KeyError
              && exists k :: 0 <= k < |tables| && "Mes" !in tables[k]
                             && forall j :: 0 <= j < k ==> MonthMatches(tables[j], wanted) == Ok(false)
  {
    if tables != [] && MonthMatches(tables[0], wanted) == Ok(false) {
      var rest := FirstMatching(tables[1..], wanted);
      FirstMatchingRaises(tables[1..], wanted);
      if rest.Raised? {
        var k :| 0 <= k < |tables[1..]| && "Mes" !in tables[1..][k]
                 && forall j :: 0 <= j < k ==> MonthMatches(tables[1..][j], wanted) == Ok(false);
        forall j | 0 <= j < k + 1 ensures MonthMatches(tables[j], wanted) == Ok(false) {
          if j > 0 { assert tables[j] == tables[1..][j - 1]; }
        }
        assert "Mes" !in tables[k + 1];
      }
    } else if tables != [] && MonthMatches(tables[0], wanted).Raised? {
      assert "Mes" !in tables[0];
    }
  }

  /** `get_reference_table(period)` applied to the reply of ConsultarTabelaDeReferencia:
      an empty reply gives `{}`; the period (0, 0) picks the first table; any other
      period picks the first table whose `Mes` matches its label, or falls through
      to None. */
  function SelectReferenceTable(tables: seq<Table>, mes: int, ano: int): (r: Result<Option<Table>>)
    ensures tables == [] ==> r == Ok(Some(map[]))
    ensures tables != [] && mes == 0 && ano == 0 ==> r == Ok(Some(tables[0]))
    ensures tables != [] && !(mes == 0 && ano == 0) && (mes < 1 || mes > 12) ==> r == Raised(ValueError)
    ensures tables != [] && 1 <= mes <= 12 ==>
              (r == Ok(None) <==> forall k :: 0 <= k < |tables| ==> MonthMatches(tables[k], MesAnoFormatado(mes, ano).value) == Ok(false))
  {
    if tables == [] then Ok(Some(map[]))
    else if mes == 0 && ano == 0 then Ok(Some(tables[0]))
    else
      match MesAnoFormatado(mes, ano)
      case Raised(e) => Raised(e)
      case Ok(wanted) => FirstMatching(tables, wanted)
  }

  /** What a constructed `FipeAPI` keeps of its reference table. */
  datatype Client = Client(referenceTableCode: Value, referenceMonthName: string)

  /** `FipeAPI(period)`: ValueError without a base URL; otherwise the reference
      table's `Codigo` (None when absent) and its stripped `Mes` ("Desconhecido"
      when absent). A failed request, a failed selection or a selection that fell
      through to None (whose `.get` raises AttributeError) make construction fail. */
  function NewClient(urlBase: string, reply: Result<seq<Table>>, mes: int, ano: int): (r: Result<Client>)
    ensures urlBase == "" ==> r == Raised(ValueError)
    ensures urlBase != "" && reply == Ok([]) ==> r == Ok(Client(Null, "Desconhecido"))
    ensures r.Ok? ==> urlBase != "" && reply.Ok? && r.value.referenceMonthName == Strip(r.value.referenceMonthName)
    ensures urlBase != "" && reply.Raised? ==> r == Raised(reply.exc)
    ensures urlBase != "" && reply.Ok? ==>
              var sel := SelectReferenceTable(reply.value, mes, ano);
              (sel.Raised? ==> r == Raised(sel.exc))
              && (sel == Ok(None) ==> r == Raised(AttributeError))
              && (sel.Ok? && sel.value.Some? ==>
                    (r.Ok? <==> Get(sel.value.value, "Mes", Str("Desconhecido")).Str?)
                    && (r.Ok? ==> r.value.referenceTableCode == Get(sel.value.value, "Codigo", Null)
                                  && r.value.referenceMonthName == Strip(Get(sel.value.value, "Mes", Str("Desconhecido")).s)))
  {
    if urlBase == "" then Raised(ValueError)
    else
      match reply
      case Raised(e) => Raised(e)
      case Ok(tables) =>
        match SelectReferenceTable(tables, mes, ano)
        case Raised(e) => Raised(e)
        case Ok(None) => Raised(AttributeError)
        case Ok(Some(t)) =>
          var month := Get(t, "Mes", Str("Desconhecido"));
          if month.Str? then
            StripIdempotent(month.s);
            Ok(Client(Get(t, "Codigo", Null), Strip(month.s)))
          else Raised(AttributeError)
  }

  /** Built from the first table that matches the period's label, a client exists
      exactly when that table's `Mes` is text; it then holds the table's `Codigo`
      and a month that lowers to the label. */
  lemma NewClientOfMatch(urlBase: string, tables: seq<Table>, mes: int, ano: int, k: int)
    requires urlBase != "" && tables != [] && 1 <= mes <= 12
    requires IsFirstMatch(tables, k, MesAnoFormatado(mes, ano).value)
    ensures var r := NewClient(urlBase, Ok(tables), mes, ano);
            (r.Ok? <==> tables[k]["Mes"].Str?)
            && (r.Ok? ==> r.value.referenceTableCode == Get(tables[k], "Codigo", Null)
                          && Lower(r.value.referenceMonthName) == MesAnoFormatado(mes, ano).value)
  {
    var wanted := MesAnoFormatado(mes, ano).value;
    FirstMatchFound(tables, k, wanted);
    assert SelectReferenceTable(tables, mes, ano) == Ok(Some(tables[k]));
    var month := tables[k]["Mes"];
    if month.Str? {
      assert Lower(Strip(month.s)) == Lower(wanted);
      MesAnoFormatadoIsLower(mes, ano);
    }
  }

  /** A client built for a calendar period from a non-empty reference list names
      that period: it is built exactly when the first table whose `Mes` matches
      the period's label has a text `Mes`, its code is that table's `Codigo`, and
      its month, lowered, is the label itself. */
  lemma NewClientNamesPeriod(urlBase: string, tables: seq<Table>, mes: int, ano: int)
    requires urlBase != "" && tables != [] && 1 <= mes <= 12
    ensures var r := NewClient(urlBase, Ok(tables), mes, ano);
            var wanted := MesAnoFormatado(mes, ano).value;
            (r.Ok? <==> exists k :: IsFirstMatch(tables, k, wanted) && tables[k]["Mes"].Str?)
            && (r.Ok? ==> Lower(r.value.referenceMonthName) == wanted
                          && exists k :: IsFirstMatch(tables, k, wanted)
                                         && r.value.referenceTableCode == Get(tables[k], "Codigo", Null))
  {
    var r := NewClient(urlBase, Ok(tables), mes, ano);
    var wanted := MesAnoFormatado(mes, ano).value;
    if r.Ok? {
      var sel := FirstMatching(tables, wanted);
      assert SelectReferenceTable(tables, mes, ano) == sel;
      assert sel.Ok? && sel.value.Some?;
      FirstMatchingIsFirst(tables, wanted);
      var k :| IsFirstMatch(tables, k, wanted);
      NewClientOfMatch(urlBase, tables, mes, ano, k);
    }
    if exists k :: IsFirstMatch(tables, k, wanted) && tables[k]["Mes"].Str? {
      var k :| IsFirstMatch(tables, k, wanted) && tables[k]["Mes"].Str?;
      NewClientOfMatch(urlBase, tables, mes, ano, k);
    }
  }

  // ---------------------------------------------------------------------------
  // get_years: parsing the ConsultarAnoModelo reply

  /** One item of the reply: its `Label` (as `text`) and `Value`, each defaulted to "". */
  datatype YearItem = YearItem(text: string, value: string)

  /** `{"yearModel": ..., "Label": ...}`, the label kept as `text`. */
  datatype YearEntry = YearEntry(yearModel: string, text: string)

  /** The fuel words the client knows, with their codes. */
  const FuelWords: map<string, string> := map["Gasolina" := "1", "Álcool" := "2", "Diesel" := "3"]

  /** `label.split(" ")[0]` */
  function YearToken(item: YearItem): string {
    Split(item.text, ' ')[0]
  }

  /** `label.split(" ")[1]` when there is one, else "" */
  function FuelWord(item: YearItem): string {
    var parts := Split(item.text, ' ');
    if |parts| > 1 then parts[1] else ""
  }

  /** The fuel code of an item: the piece after the last `-` of `Value` when it
      has one, else the code of the label's second word, else "". */
  function FuelCode(item: YearItem): string {
    if '-' in item.value then LastPiece(item.value, '-')
    else if FuelWord(item) in FuelWords then FuelWords[FuelWord(item)]
    else ""
  }

  /** The entry an item contributes when its year token is all digits. */
  function EntryOf(item: YearItem): YearEntry {
    YearEntry(YearToken(item), item.text)
  }

  /** The years kept from `items`, in input order. */
  function KeptYears(items: seq<YearItem>): seq<YearEntry> {
    if items == [] then []
    else
      var last := items[|items| - 1];
      KeptYears(items[..|items| - 1]) + (if AllDigits(YearToken(last)) then [EntryOf(last)] else [])
  }

  /** The non-empty fuel codes of `items`, from every item, kept year or not. */
  function FuelCodes(items: seq<YearItem>): set<string> {
    if items == [] then {}
    else
      var code := FuelCode(items[|items| - 1]);
      FuelCodes(items[..|items| - 1]) + (if code != "" then {code} else {})
  }

  /** The loop of `get_years` over the reply items. */
  method ParseYears(items: seq<YearItem>) returns (years: seq<YearEntry>, fuels: set<string>)
    ensures years == KeptYears(items)
    ensures fuels == FuelCodes(items)
  {
    years := [];
    fuels := {};
    for i := 0 to |items|
      invariant years == KeptYears(items[..i])
      invariant fuels == FuelCodes(items[..i])
    {
      var item := items[i];
      var yearStr := Split(item.text, ' ')[0];
      var fuelNumber: string;
      if '-' in item.value {
        fuelNumber := LastPiece(item.value, '-');
      } else {
        var parts := Split(item.text, ' ');
        var word := if |parts| > 1 then parts[1] else "";
        fuelNumber := if word in FuelWords then FuelWords[word] else "";
      }
      if fuelNumber != "" {
        fuels := fuels + {fuelNumber};
      }
      if AllDigits(yearStr) {
        years := years + [YearEntry(yearStr, item.text)];
      }
      assert items[..i + 1][..i] == items[..i];
    }
    assert items[..|items|] == items;
  }

  /** An entry is kept exactly when some item has an all-digit year token; the
      entry pairs that token with the item's whole label. */
  lemma {:induction false} KeptYearsMembers(items: seq<YearItem>, e: YearEntry)
    ensures e in KeptYears(items) <==>
              exists i :: 0 <= i < |items| && AllDigits(YearToken(items[i])) && e == EntryOf(items[i])
  {
    if items != [] {
      var init := items[..|items| - 1];
      KeptYearsMembers(init, e);
      if exists i :: 0 <= i < |items| && AllDigits(YearToken(items[i])) && e == EntryOf(items[i]) {
        var i :| 0 <= i < |items| && AllDigits(YearToken(items[i])) && e == EntryOf(items[i]);
        if i < |init| { assert init[i] == items[i]; }
      }
      if exists i :: 0 <= i < |init| && AllDigits(YearToken(init[i])) && e == EntryOf(init[i]) {
        var i :| 0 <= i < |init| && AllDigits(YearToken(init[i])) && e == EntryOf(init[i]);
        assert items[i] == init[i];
      }
    }
  }

  /** Every kept year is all digits and is the first token of its own label, and
      no more entries are kept than there are items. */
  lemma {:induction false} KeptYearsWellFormed(items: seq<YearItem>)
    ensures |KeptYears(items)| <= |items|
    ensures forall k :: 0 <= k < |KeptYears(items)| ==>
              AllDigits(KeptYears(items)[k].yearModel)
              && KeptYears(items)[k].yearModel == Split(KeptYears(items)[k].text, ' ')[0]
  {
    if items != [] {
      KeptYearsWellFormed(items[..|items| - 1]);
    }
  }

  /** A code is collected exactly when some item yields it, and it is never empty. */
  lemma {:induction false} FuelCodesMembers(items: seq<YearItem>, f: string)
    ensures f in FuelCodes(items) <==>
              f != "" && exists i :: 0 <= i < |items| && FuelCode(items[i]) == f
  {
    if items != [] {
      var init := items[..|items| - 1];
      FuelCodesMembers(init, f);
      if exists i :: 0 <= i < |items| && FuelCode(items[i]) == f {
        var i :| 0 <= i < |items| && FuelCode(items[i]) == f;
        if i < |init| { assert init[i] == items[i]; }
      }
      if exists i :: 0 <= i < |init| && FuelCode(init[i]) == f {
        var i :| 0 <= i < |init| && FuelCode(init[i]) == f;
        assert items[i] == init[i];
      }
    }
  }

  /** No fuel code holds a `-`: a hyphenated value contributes its last piece, and
      the mapped codes are single digits. */
  lemma FuelCodeHasNoDash(item: YearItem)
    ensures '-' !in FuelCode(item)
  {
    LastPieceIsFreeSuffix(item.value, '-');
    assert '-' !in "1" && '-' !in "2" && '-' !in "3";
  }

  /** A hyphenated value's code is what follows its last `-`. */
  lemma FuelCodeOfHyphenated(item: YearItem)
    requires '-' in item.value
    ensures var v, c := item.value, FuelCode(item);
            |c| < |v| && v[|v| - |c| - 1] == '-' && v[|v| - |c|..] == c
  {
    var v := item.value;
    var parts := Split(v, '-');
    SplitManyIff(v, '-');
    SplitJoin(v, '-');
    JoinEndsWithLast(parts, '-');
  }

  /** With two or more pieces, the join ends with a separator and the last piece. */
  lemma {:induction false} JoinEndsWithLast(parts: seq<string>, sep: char)
    requires |parts| >= 2
    ensures var j := Join(parts, sep); var l := parts[|parts| - 1];
            |j| > |l| && j == j[..|j| - |l|] + l && j[|j| - |l| - 1] == sep
  {
    if |parts| > 2 {
      JoinEndsWithLast(parts[1..], sep);
      assert parts[1..][|parts[1..]| - 1] == parts[|parts| - 1];
    }
  }

  /** An item labelled "<year> <word>" whose value is "<year>-<code>" (as in
      "2020 Gasolina" / "2020-1") yields the year and the code after the dash. */
  lemma ParseYearsHyphenated(year: string, word: string, code: string)
    requires AllDigits(year) && '-' !in code && code != ""
    ensures var item := YearItem(year + " " + word, year + "-" + code);
            KeptYears([item]) == [YearEntry(year, item.text)] && FuelCodes([item]) == {code}
  {
    var item := YearItem(year + " " + word, year + "-" + code);
    assert ' ' !in year && '-' !in year;
    SplitAtFirst(year, ' ', word);
    assert YearToken(item) == year;
    assert item.value[|year|] == '-';
    SplitAtFirst(year, '-', code);
    SplitWithoutSeparator(code, '-');
    assert FuelCode(item) == code;
    assert [item][..0] == [];
  }

  /** An item whose year token is not a number is dropped from the years, yet a
      known fuel word in its label still contributes that fuel's code. */
  lemma ParseYearsDroppedYear(token: string, word: string, value: string)
    requires ' ' !in token && !AllDigits(token) && '-' !in value
    requires word in FuelWords
    ensures var item := YearItem(token + " " + word, value);
            KeptYears([item]) == [] && FuelCodes([item]) == {FuelWords[word]}
  {
    var item := YearItem(token + " " + word, value);
    assert ' ' !in word by {
      assert word == "Gasolina" || word == "Álcool" || word == "Diesel";
    }
    SplitAtFirst(token, ' ', word);
    SplitWithoutSeparator(word, ' ');
    assert Split(item.text, ' ') == [token, word];
    assert FuelCode(item) == FuelWords[word];
    assert [item][..0] == [];
  }

  // ---------------------------------------------------------------------------
  // chunk_list

  /** `list(chunk_list(data, size))`: consecutive slices of `size` elements, the
      last one possibly shorter. */
  function Chunks<T>(data: seq<T>, size: nat): seq<seq<T>>
    requires size > 0
    decreases |data|
  {
    if data == [] then []
    else if |data| <= size then [data]
    else [data[..size]] + Chunks(data[size..], size)
  }

  function Flatten<T>(xs: seq<seq<T>>): seq<T> {
    if xs == [] then [] else xs[0] + Flatten(xs[1..])
  }

  lemma {:induction false} FlattenAppend<T>(xs: seq<seq<T>>, ys: seq<seq<T>>)
    ensures Flatten(xs + ys) == Flatten(xs) + Flatten(ys)
  {
    if xs == [] {
      assert xs + ys == ys;
    } else {
      var zs := xs + ys;
      assert zs[0] == xs[0] && zs[1..] == xs[1..] + ys;
      FlattenAppend(xs[1..], ys);
      assert Flatten(zs) == xs[0] + (Flatten(xs[1..]) + Flatten(ys));
    }
  }

  /** The chunks concatenate back to the input. */
  lemma {:induction false} ChunksFlatten<T>(data: seq<T>, size: nat)
    requires size > 0
    ensures Flatten(Chunks(data, size)) == data
    decreases |data|
  {
    if data != [] && |data| <= size {
      assert Chunks(data, size)[1..] == [];
    } else if data != [] {
      var c := Chunks(data, size);
      ChunksFlatten(data[size..], size);
      assert c[1..] == Chunks(data[size..], size);
      assert data == data[..size] + data[size..];
    }
  }

  /** No more chunks than needed: `size` times the count covers the input, and
      one chunk fewer would not. */
  lemma {:induction false} ChunksCount<T>(data: seq<T>, size: nat)
    requires size > 0
    ensures |data| <= |Chunks(data, size)| * size
    ensures |Chunks(data, size)| > 0 ==> (|Chunks(data, size)| - 1) * size < |data|
    ensures data == [] <==> Chunks(data, size) == []
    decreases |data|
  {
    if data != [] && |data| > size {
      var n := |Chunks(data[size..], size)|;
      ChunksCount(data[size..], size);
      assert |Chunks(data, size)| == n + 1;
      assert (n + 1) * size == n * size + size;
      assert n > 0;
      assert (n + 1 - 1) * size == (n - 1) * size + size;
    }
  }

  /** Each chunk holds between 1 and `size` elements, all but the last exactly `size`. */
  lemma {:induction false} ChunksSizes<T>(data: seq<T>, size: nat)
    requires size > 0
    ensures forall i :: 0 <= i < |Chunks(data, size)| ==> 0 < |Chunks(data, size)[i]| <= size
    ensures forall i :: 0 <= i < |Chunks(data, size)| - 1 ==> |Chunks(data, size)[i]| == size
    decreases |data|
  {
    if data != [] && |data| > size {
      var c := Chunks(data, size);
      var rest := Chunks(data[size..], size);
      ChunksSizes(data[size..], size);
      assert c == [data[..size]] + rest;
      forall i | 0 < i < |c| ensures c[i] == rest[i - 1] {
      }
    }
  }

  /** 25 messages go out as three chunks of 10, 10 and 5. */
  lemma ChunksOfTwentyFive<T>(data: seq<T>)
    requires |data| == 25
    ensures Chunks(data, 10) == [data[..10], data[10..20], data[20..]]
  {
    assert Chunks(data[20..], 10) == [data[20..]];
    assert data[10..][..10] == data[10..20];
    assert data[10..][10..] == data[20..];
    assert Chunks(data[10..], 10) == [data[10..20]] + Chunks(data[20..], 10);
    assert Chunks(data, 10) == [data[..10]] + Chunks(data[10..], 10);
  }

  // ---------------------------------------------------------------------------
  // send_sqs_messages

  /** The queue's largest batch. */
  const MaxBatch: nat := 10

  /** `{"Id": str(index), "MessageBody": json.dumps(message)}`; the body is kept
      as the message itself. */
  datatype Entry<T> = Entry(id: string, body: T)

  /** One entry per message, identified by its position in the whole list. */
  function Entries<T>(messages: seq<T>): (r: seq<Entry<T>>)
    ensures |r| == |messages|
  {
    seq(|messages|, i requires 0 <= i < |messages| => Entry(IntToString(i), messages[i]))
  }

  /** Entry ids are the positions printed in decimal, so they are distinct across
      all chunks, and each body is its own message. */
  lemma EntriesIdentified<T>(messages: seq<T>)
    ensures forall i :: 0 <= i < |messages| ==>
              Entries(messages)[i].body == messages[i] && PyInt(Str(Entries(messages)[i].id)) == Ok(i)
    ensures forall i, j :: 0 <= i < j < |messages| ==> Entries(messages)[i].id != Entries(messages)[j].id
  {
    forall i | 0 <= i < |messages| ensures PyInt(Str(Entries(messages)[i].id)) == Ok(i) {
      PyIntOfPyStr(i);
    }
    forall i, j | 0 <= i < j < |messages| ensures Entries(messages)[i].id != Entries(messages)[j].id {
      if IntToString(i) == IntToString(j) { IntToStringInjective(i, j); }
    }
  }

  /** The queue's answer to one `send_message_batch` call: the ids it reports under
      `Failed`, or an exception. */
  datatype BatchReply = Accepted(failedIds: seq<string>) | BatchRaised

  /** The failures collected so far put in front of those still to come. */
  function PrependFailures(acc: seq<string>, r: Result<seq<string>>): Result<seq<string>> {
    if r.Ok? then Ok(acc + r.value) else r
  }

  /** Sending `count` chunks starting at call number `from`: the failed ids in
      chunk order, or the exception of the first call that raised; and the number
      of calls made (the raising one included). */
  function SendChunks(count: nat, sqs: nat -> BatchReply, from: nat): (r: (Result<seq<string>>, nat))
    ensures r.1 <= count
    ensures r.0.Ok? ==> r.1 == count
    decreases count
  {
    if count == 0 then (Ok([]), 0)
    else
      match sqs(from)
      case BatchRaised => (Raised(ServiceError), 1)
      case Accepted(ids) =>
        var rest := SendChunks(count - 1, sqs, from + 1);
        (PrependFailures(ids, rest.0), rest.1 + 1)
  }

  /** When no `send_message_batch` call raises, neither does the chunked send, and
      it makes one call per chunk. */
  lemma {:induction false} SendChunksAllAccepted(count: nat, sqs: nat -> BatchReply, from: nat)
    requires forall k :: from <= k < from + count ==> sqs(k).Accepted?
    ensures SendChunks(count, sqs, from).0.Ok? && SendChunks(count, sqs, from).1 == count
    decreases count
  {
    if count > 0 {
      assert sqs(from).Accepted?;
      SendChunksAllAccepted(count - 1, sqs, from + 1);
    }
  }

  /** `send_sqs_messages(queue_url, messages)` as seen by its callers: the failures
      it returns (or the exception it re-raises) and the number of
      `send_message_batch` calls it made. */
  function SendResult<T>(messages: seq<T>, sqs: nat -> BatchReply, from: nat): (Result<seq<string>>, nat) {
    SendChunks(|Chunks(Entries(messages), MaxBatch)|, sqs, from)
  }

  /** `send_sqs_messages`: numbers the messages, sends them in chunks of 10 (call
      numbers `calls0`, `calls0 + 1`, ...), collects the per-item failures and
      re-raises an exception from the send call itself. `sent` lists the chunks
      handed to the queue, in order. */
  method SendSqsMessages<T>(messages: seq<T>, sqs: nat -> BatchReply, calls0: nat)
    returns (failures: Result<seq<string>>, sent: seq<seq<Entry<T>>>, calls: nat)
    ensures failures == SendResult(messages, sqs, calls0).0
    ensures calls == calls0 + SendResult(messages, sqs, calls0).1
    ensures calls == calls0 + |sent|
    ensures sent == Chunks(Entries(messages), MaxBatch)[..|sent|]
    ensures failures.Ok? ==> sent == Chunks(Entries(messages), MaxBatch)
  {
    var entries := Entries(messages);
    var chunks := Chunks(entries, MaxBatch);
    var acc: seq<string> := [];
    sent := [];
    calls := calls0;
    var i := 0;
    assert PrependFailures([], SendChunks(|chunks|, sqs, calls0).0) == SendChunks(|chunks|, sqs, calls0).0 by {
      var r := SendChunks(|chunks|, sqs, calls0).0;
      if r.Ok? { assert [] + r.value == r.value; }
    }
    while i < |chunks|
      invariant 0 <= i <= |chunks|
      invariant sent == chunks[..i] && calls == calls0 + i
      invariant SendChunks(|chunks|, sqs, calls0).0 == PrependFailures(acc, SendChunks(|chunks| - i, sqs, calls).0)
      invariant SendChunks(|chunks|, sqs, calls0).1 == i + SendChunks(|chunks| - i, sqs, calls).1
    {
      var reply := sqs(calls);
      sent := sent + [chunks[i]];
      calls := calls + 1;
      if reply.BatchRaised? {
        failures := Raised(ServiceError);
        assert sent == chunks[..i + 1];
        return;
      }
      var later := SendChunks(|chunks| - i - 1, sqs, calls);
      assert later.0.Ok? ==> acc + (reply.failedIds + later.0.value) == (acc + reply.failedIds) + later.0.value;
      acc := acc + reply.failedIds;
      i := i + 1;
    }
    failures := Ok(acc);
    assert acc + [] == acc;
    assert chunks[..i] == chunks;
  }

  /** A reply that names only ids of the chunk it answers. */
  ghost predicate ReplyFits<T>(chunk: seq<Entry<T>>, reply: BatchReply) {
    reply.Accepted? ==> forall id :: id in reply.failedIds ==> exists e :: e in chunk && e.id == id
  }

  /** When the queue only reports ids it was given, every failure returned is the
      printed position of one of the messages. (A caller's list of failures may
      therefore hold "0", "1", ... alongside the input's own message ids.) */
  lemma {:induction false} SendFailuresAreIndices<T>(messages: seq<T>, sqs: nat -> BatchReply, from: nat)
    requires forall k :: 0 <= k < |Chunks(Entries(messages), MaxBatch)| ==>
               ReplyFits(Chunks(Entries(messages), MaxBatch)[k], sqs(from + k))
    requires SendResult(messages, sqs, from).0.Ok?
    ensures forall id :: id in SendResult(messages, sqs, from).0.value ==>
              exists i :: 0 <= i < |messages| && id == IntToString(i)
  {
    var chunks := Chunks(Entries(messages), MaxBatch);
    ChunksFlatten(Entries(messages), MaxBatch);
    forall id | id in SendResult(messages, sqs, from).0.value
      ensures exists i :: 0 <= i < |messages| && id == IntToString(i)
    {
      var e := SendChunksFailureSource(chunks, sqs, from, id);
      FlattenMember(chunks, e);
      var i :| 0 <= i < |Entries(messages)| && Entries(messages)[i] == e;
    }
  }

  /** A failure reported by the chunked send names an entry of some chunk. */
  lemma {:induction false} SendChunksFailureSource<T>(chunks: seq<seq<Entry<T>>>, sqs: nat -> BatchReply, from: nat, id: string)
    returns (e: Entry<T>)
    requires forall k :: 0 <= k < |chunks| ==> ReplyFits(chunks[k], sqs(from + k))
    requires SendChunks(|chunks|, sqs, from).0.Ok?
    requires id in SendChunks(|chunks|, sqs, from).0.value
    ensures e.id == id && e in Flatten(chunks)
    decreases |chunks|
  {
    var reply := sqs(from);
    assert ReplyFits(chunks[0], sqs(from + 0));
    var rest := SendChunks(|chunks| - 1, sqs, from + 1);
    if id in reply.failedIds {
      e :| e in chunks[0] && e.id == id;
    } else {
      forall k | 0 <= k < |chunks[1..]| ensures ReplyFits(chunks[1..][k], sqs(from + 1 + k)) {
        assert ReplyFits(chunks[k + 1], sqs(from + (k + 1)));
      }
      e := SendChunksFailureSource(chunks[1..], sqs, from + 1, id);
    }
    assert Flatten(chunks) == chunks[0] + Flatten(chunks[1..]);
  }

  lemma {:induction false} FlattenMember<T>(xs: seq<seq<T>>, x: T)
    requires x in Flatten(xs)
    ensures x in xs[0] || (|xs| > 1 && x in Flatten(xs[1..]))
    ensures x in Flatten(xs) ==> exists i :: 0 <= i < |Flatten(xs)| && Flatten(xs)[i] == x
  {
  }
}
