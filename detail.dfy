/** `extract_additional_info`: the record read from one detail page. */
module Detail {
  import opened Wrappers
  import opened Text
  import opened Dicts
  import opened Page
  import opened Monetary
  import opened IdResolver

  // ---------------------------------------------------------------------------
  // The detail table

  /** The three fields the table's rows can set. */
  datatype Field = ValorEstimado | Situacao | DataAbertura

  /** The header text that selects each field. */
  function Label(f: Field): string {
    match f
    case ValorEstimado => "Valor Estimado"
    case Situacao => "Situação"
    case DataAbertura => "Data da Abertura"
  }

  /** The order in which the `if`/`elif` chain tries the labels. */
  function Priority(f: Field): nat {
    match f
    case ValorEstimado => 0
    case Situacao => 1
    case DataAbertura => 2
  }

  /** The field a stripped header sets, as the `if`/`elif` chain decides. */
  function HeaderField(header: string): Option<Field> {
    if Contains(header, "Valor Estimado") then Some(ValorEstimado)
    else if Contains(header, "Situação") then Some(Situacao)
    else if Contains(header, "Data da Abertura") then Some(DataAbertura)
    else None
  }

  /** A header sets the field of highest priority whose label it contains. */
  lemma HeaderPrecedence(header: string, f: Field)
    ensures HeaderField(header) == Some(f) <==>
              Contains(header, Label(f)) && forall g :: Priority(g) < Priority(f) ==> !Contains(header, Label(g))
  {
    match f
    case ValorEstimado =>
    case Situacao =>
      assert Priority(ValorEstimado) < Priority(f) && Label(ValorEstimado) == "Valor Estimado";
      assert forall g :: Priority(g) < Priority(f) ==> g == ValorEstimado;
    case DataAbertura =>
      assert Priority(ValorEstimado) < Priority(f) && Label(ValorEstimado) == "Valor Estimado";
      assert Priority(Situacao) < Priority(f) && Label(Situacao) == "Situação";
      assert forall g :: Priority(g) < Priority(f) ==> g == ValorEstimado || g == Situacao;
  }

  /** The values of the three fields after some rows. */
  datatype TableFields = TableFields(valorEstimado: string, situacao: string, dataAbertura: string)

  const NoTableFields := TableFields(NotFound, NotFound, NotFound)

  function FieldOf(t: TableFields, f: Field): string {
    match f
    case ValorEstimado => t.valorEstimado
    case Situacao => t.situacao
    case DataAbertura => t.dataAbertura
  }

  /** A row counts for `f` when it has exactly two cells and its stripped
      header selects `f`. */
  predicate Selects(row: seq<string>, f: Field) {
    |row| == 2 && HeaderField(Strip(row[0])) == Some(f)
  }

  /** What a row that counts for `f` stores in it: the stripped value cell,
      through the monetary extractor for the estimated value. */
  function Stored(row: seq<string>, f: Field): string
    requires |row| == 2
  {
    if f == ValorEstimado then ExtractMonetaryValue(Strip(row[1])) else Strip(row[1])
  }

  /** One turn of the row loop. */
  function RowStep(acc: TableFields, row: seq<string>): TableFields {
    if |row| != 2 then acc
    else match HeaderField(Strip(row[0]))
      case Some(ValorEstimado) => acc.(valorEstimado := Stored(row, ValorEstimado))
      case Some(Situacao) => acc.(situacao := Stored(row, Situacao))
      case Some(DataAbertura) => acc.(dataAbertura := Stored(row, DataAbertura))
      case None => acc
  }

  /** The three fields after the row loop has seen all of `rows`. */
  function ScanRows(rows: seq<seq<string>>): TableFields
    decreases |rows|
  {
    if rows == [] then NoTableFields else RowStep(ScanRows(rows[..|rows| - 1]), rows[|rows| - 1])
  }

  /** A row sets only the field it counts for, and leaves the others alone. */
  lemma RowStepSetsOneField(acc: TableFields, row: seq<string>, f: Field)
    ensures Selects(row, f) ==> FieldOf(RowStep(acc, row), f) == Stored(row, f)
    ensures !Selects(row, f) ==> FieldOf(RowStep(acc, row), f) == FieldOf(acc, f)
  {
  }

  /** A field that no row counts for keeps the sentinel. */
  lemma {:induction false} ScanRowsDefault(rows: seq<seq<string>>, f: Field)
    requires forall k :: 0 <= k < |rows| ==> !Selects(rows[k], f)
    ensures FieldOf(ScanRows(rows), f) == NotFound
    decreases |rows|
  {
    if rows != [] {
      var init := rows[..|rows| - 1];
      assert forall k :: 0 <= k < |init| ==> init[k] == rows[k];
      ScanRowsDefault(init, f);
      RowStepSetsOneField(ScanRows(init), rows[|rows| - 1], f);
    }
  }

  /** The last row that counts for a field decides its value. */
  lemma {:induction false} ScanRowsLastWins(rows: seq<seq<string>>, f: Field, k: nat)
    requires k < |rows| && Selects(rows[k], f)
    requires forall m :: k < m < |rows| ==> !Selects(rows[m], f)
    ensures FieldOf(ScanRows(rows), f) == Stored(rows[k], f)
    decreases |rows|
  {
    var init := rows[..|rows| - 1];
    var last := rows[|rows| - 1];
    var acc := ScanRows(init);
    assert ScanRows(rows) == RowStep(acc, last);
    if k == |rows| - 1 {
      assert Selects(last, f);
      RowStepSetsOneField(acc, last, f);
    } else {
      assert !Selects(last, f);
      RowStepSetsOneField(acc, last, f);
      assert FieldOf(ScanRows(rows), f) == FieldOf(acc, f);
      assert init[k] == rows[k];
      assert forall m :: k < m < |init| ==> !Selects(init[m], f) by {
        forall m | k < m < |init| ensures !Selects(init[m], f) {
          assert init[m] == rows[m];
        }
      }
      ScanRowsLastWins(init, f, k);
    }
  }

  /** A row that counts for no field changes nothing, wherever it stands. */
  lemma {:induction false} ScanRowsSkipsUnmatched(before: seq<seq<string>>, row: seq<string>, after: seq<seq<string>>)
    requires forall f :: !Selects(row, f)
    ensures ScanRows(before + [row] + after) == ScanRows(before + after)
    decreases |after|
  {
    var all := before + [row] + after;
    if after == [] {
      assert all[..|all| - 1] == before && all[|all| - 1] == row;
      assert before + after == before;
      var acc := ScanRows(before);
      assert ScanRows(all) == RowStep(acc, row);
      assert RowStep(acc, row) == acc by {
        forall f ensures FieldOf(RowStep(acc, row), f) == FieldOf(acc, f) {
          RowStepSetsOneField(acc, row, f);
        }
        assert FieldOf(RowStep(acc, row), ValorEstimado) == FieldOf(acc, ValorEstimado);
        assert FieldOf(RowStep(acc, row), Situacao) == FieldOf(acc, Situacao);
        assert FieldOf(RowStep(acc, row), DataAbertura) == FieldOf(acc, DataAbertura);
      }
    } else {
      var init := after[..|after| - 1];
      var last := after[|after| - 1];
      var rest := before + after;
      assert all[..|all| - 1] == before + [row] + init && all[|all| - 1] == last;
      assert rest[..|rest| - 1] == before + init && rest[|rest| - 1] == last;
      assert ScanRows(all) == RowStep(ScanRows(before + [row] + init), last);
      assert ScanRows(rest) == RowStep(ScanRows(before + init), last);
      ScanRowsSkipsUnmatched(before, row, init);
    }
  }

  // ---------------------------------------------------------------------------
  // The lookups outside the table

  const UnidadeLabel := "Unidade Administrativa"

  /** The label with its ASCII letters in lower case, as the case-insensitive
      search compares it. */
  const UnidadeLabelLower := "unidade administrativa"

  /** The text of a `td` matches `re.compile('Unidade Administrativa', re.IGNORECASE)`. */
  predicate IsUnidadeLabel(text: string) {
    Contains(Lower(text), UnidadeLabelLower)
  }

  /** The label starts at index `i` of `text` when each of its characters
      agrees with the text's up to the case of ASCII letters. */
  predicate LabelAt(text: string, i: int) {
    && 0 <= i <= |text| - |UnidadeLabel|
    && forall j :: 0 <= j < |UnidadeLabel| ==> LowerChar(text[i + j]) == LowerChar(UnidadeLabel[j])
  }

  lemma UnidadeLabelLowered()
    ensures |UnidadeLabelLower| == |UnidadeLabel|
    ensures forall j :: 0 <= j < |UnidadeLabel| ==> UnidadeLabelLower[j] == LowerChar(UnidadeLabel[j])
  {
    assert Lower(UnidadeLabel) == UnidadeLabelLower;
  }

  /** A cell is the label exactly when the label occurs somewhere in its
      text, ignoring the case of ASCII letters. */
  lemma IsUnidadeLabelIgnoresCase(text: string)
    ensures IsUnidadeLabel(text) <==> exists i :: LabelAt(text, i)
  {
    var low := Lower(text);
    var n := |UnidadeLabel|;
    ContainsIffOccurs(low, UnidadeLabelLower);
    UnidadeLabelLowered();
    forall i ensures OccursAt(low, UnidadeLabelLower, i) <==> LabelAt(text, i) {
      if 0 <= i <= |text| - n {
        var w := low[i..i + n];
        assert forall j :: 0 <= j < n ==> w[j] == LowerChar(text[i + j]);
        if LabelAt(text, i) {
          assert w == UnidadeLabelLower;
        }
      }
    }
  }

  /** `k` is the first `td` whose text is the label. */
  predicate IsFirstLabel(cells: seq<string>, k: int) {
    0 <= k < |cells| && IsUnidadeLabel(cells[k]) && forall m :: 0 <= m < k ==> !IsUnidadeLabel(cells[m])
  }

  /** The first `td` from `from` on whose text is the label. */
  function FindLabel(cells: seq<string>, from: nat): (k: Option<nat>)
    requires from <= |cells|
    ensures k.Some? ==> from <= k.value < |cells| && IsUnidadeLabel(cells[k.value])
    ensures k.Some? ==> forall m :: from <= m < k.value ==> !IsUnidadeLabel(cells[m])
    ensures k.None? ==> forall m :: from <= m < |cells| ==> !IsUnidadeLabel(cells[m])
    decreases |cells| - from
  {
    if from == |cells| then None
    else if IsUnidadeLabel(cells[from]) then Some(from)
    else FindLabel(cells, from + 1)
  }

  lemma FirstLabelUnique(cells: seq<string>, k: int)
    requires IsFirstLabel(cells, k)
    ensures forall j :: IsFirstLabel(cells, j) ==> j == k
  {
  }

  /** The administrative unit: the stripped text of the `td` after the first
      label cell; the sentinel without a label cell; a crash when the label
      is the last `td` of the page. */
  function UnidadeAdministrativa(cells: seq<string>): (r: Result<string, Crash>)
    ensures (forall m :: 0 <= m < |cells| ==> !IsUnidadeLabel(cells[m])) ==> r == Success(NotFound)
    ensures forall k :: IsFirstLabel(cells, k) ==>
              r == if k + 1 < |cells| then Success(Strip(cells[k + 1])) else Failure(NoCellAfterLabel)
  {
    match FindLabel(cells, 0)
    case None => Success(NotFound)
    case Some(k) =>
      assert IsFirstLabel(cells, k);
      FirstLabelUnique(cells, k);
      if k + 1 < |cells| then Success(Strip(cells[k + 1])) else Failure(NoCellAfterLabel)
  }

  /** The edital link: the `href` of the `<a>` around the download icon, or
      the sentinel when the icon, the `<a>` or the attribute is missing. */
  function EditalLink(icon: Option<Icon>): (r: string)
    ensures (icon.Some? && icon.value.enclosingAnchor.Some? && icon.value.enclosingAnchor.value.href.Some?) ==>
              r == icon.value.enclosingAnchor.value.href.value
    ensures (icon.None? || icon.value.enclosingAnchor.None? || icon.value.enclosingAnchor.value.href.None?) ==>
              r == NotFound
  {
    match icon
    case None => NotFound
    case Some(Icon(None)) => NotFound
    case Some(Icon(Some(Anchor(None)))) => NotFound
    case Some(Icon(Some(Anchor(Some(href))))) => href
  }

  /** The full description: the text of the `div` after the `Objeto` heading
      with each fragment stripped, so it never starts or ends with
      whitespace; the sentinel when the heading or the `div` is missing. */
  function DescricaoCompleta(objeto: Option<Heading>): (r: string)
    ensures (objeto.None? || objeto.value.nextDiv.None?) ==> r == NotFound
    ensures objeto.Some? && objeto.value.nextDiv.Some? ==> r == GetTextStripped(objeto.value.nextDiv.value)
    ensures r == [] || (!IsSpace(r[0]) && !IsSpace(r[|r| - 1]))
  {
    match objeto
    case Some(Heading(Some(fragments))) =>
      GetTextStripped(fragments)
    case _ => NotFound
  }

  // ---------------------------------------------------------------------------
  // The record

  const DetailKeys: seq<string> :=
    ["Id", "Unidade Administrativa", "Valor Estimado", "Situação", "Data da Abertura", "Edital", "Descrição Completa"]

  /** The dict literal `extract_additional_info` returns. */
  function DetailDict(id: string, unidade: string, table: TableFields, edital: string, descricao: string): (d: Dict)
    ensures Keys(d) == DetailKeys && DistinctKeys(d)
  {
    [ ("Id", id),
      ("Unidade Administrativa", unidade),
      ("Valor Estimado", table.valorEstimado),
      ("Situação", table.situacao),
      ("Data da Abertura", table.dataAbertura),
      ("Edital", edital),
      ("Descrição Completa", descricao) ]
  }

  /** What `extract_additional_info(item_url)` gives for the response its
      fetch of `item_url` got: `None` for a status other than 200, a crash on
      a missing table or on a label cell with no cell after it, the record
      otherwise. */
  function AdditionalInfo(itemUrl: string, response: Fetched): Result<Option<Dict>, Crash> {
    match response
    case Raised => Failure(FetchRaised)
    case Answered(status, page) =>
      if status != 200 then Success(None)
      else if page.table.None? then Failure(NoDetailTable)
      else
        match UnidadeAdministrativa(page.cells)
        case Failure(e) => Failure(e)
        case Success(unidade) =>
          Success(Some(DetailDict(ExtractIdFromUrl(itemUrl), unidade, ScanRows(page.table.value),
                                  EditalLink(page.icon), DescricaoCompleta(page.objeto))))
  }

  /** `extract_additional_info`: fetch the page, run the row loop over the
      table, then the three lookups, and assemble the record. */
  method ExtractAdditionalInfo(itemUrl: string, fetch: string -> Fetched) returns (r: Result<Option<Dict>, Crash>)
    ensures r == AdditionalInfo(itemUrl, fetch(itemUrl))
  {
    var response := fetch(itemUrl);
    if response.Raised? {
      return Failure(FetchRaised);
    }
    if response.status != 200 {
      return Success(None);
    }
    var page := response.page;
    if page.table.None? {
      return Failure(NoDetailTable);
    }
    var rows := page.table.value;

    var valorEstimado, situacao, dataAbertura := ScanTableRows(rows);
    var table := TableFields(valorEstimado, situacao, dataAbertura);

    var unidade := UnidadeAdministrativa(page.cells);
    if unidade.Failure? {
      return Failure(unidade.error);
    }
    var edital := EditalLink(page.icon);
    var descricao := DescricaoCompleta(page.objeto);
    var id := ExtractIdFromUrl(itemUrl);
    r := Success(Some(DetailDict(id, unidade.value, table, edital, descricao)));
  }

  /** The row loop of `extract_additional_info`: every row with exactly two
      cells is matched on its stripped header, and the field that header
      selects is overwritten with the stripped value. */
  method ScanTableRows(rows: seq<seq<string>>) returns (valorEstimado: string, situacao: string, dataAbertura: string)
    ensures TableFields(valorEstimado, situacao, dataAbertura) == ScanRows(rows)
  {
    valorEstimado, situacao, dataAbertura := NotFound, NotFound, NotFound;
    var i := 0;
    while i < |rows|
      invariant 0 <= i <= |rows|
      invariant TableFields(valorEstimado, situacao, dataAbertura) == ScanRows(rows[..i])
    {
      ScanRowsStep(rows, i);
      ghost var before := TableFields(valorEstimado, situacao, dataAbertura);
      var cells := rows[i];
      if |cells| == 2 {
        var header := Strip(cells[0]);
        var value := Strip(cells[1]);
        if Contains(header, "Valor Estimado") {
          valorEstimado := ExtractMonetaryValue(value);
        } else if Contains(header, "Situação") {
          situacao := value;
        } else if Contains(header, "Data da Abertura") {
          dataAbertura := value;
        }
      }
      assert TableFields(valorEstimado, situacao, dataAbertura) == RowStep(before, cells);
      i := i + 1;
    }
    assert rows[..|rows|] == rows;
  }

  /** The row loop's spec function takes one more row at a time. */
  lemma ScanRowsStep(rows: seq<seq<string>>, i: nat)
    requires i < |rows|
    ensures ScanRows(rows[..i + 1]) == RowStep(ScanRows(rows[..i]), rows[i])
  {
    assert rows[..i + 1][..i] == rows[..i];
  }

  // ---------------------------------------------------------------------------
  // Properties of the record

  /** A record is produced exactly when the fetch answered 200, the table is
      there and the label lookup did not crash; it then has the seven keys in
      their fixed order, and its Id comes from the URL alone. */
  lemma DetailRecordShape(itemUrl: string, response: Fetched)
    ensures var r := AdditionalInfo(itemUrl, response);
            r.Success? && r.value.Some? <==>
              response.Answered? && response.status == 200 && response.page.table.Some? &&
              UnidadeAdministrativa(response.page.cells).Success?
    ensures var r := AdditionalInfo(itemUrl, response);
            r.Success? && r.value.Some? ==>
              Keys(r.value.value) == DetailKeys && DistinctKeys(r.value.value) &&
              r.value.value[0].1 == ExtractIdFromUrl(itemUrl)
  {
  }

  /** A status other than 200 gives `None`, whatever the page. */
  lemma NonOkGivesNone(itemUrl: string, status: int, page: DetailPage)
    requires status != 200
    ensures AdditionalInfo(itemUrl, Answered(status, page)) == Success(None)
  {
  }

  /** The record of a page that answered 200, in terms of its parts. */
  lemma RecordOfPage(itemUrl: string, p: DetailPage)
    requires AdditionalInfo(itemUrl, Answered(200, p)).Success? && AdditionalInfo(itemUrl, Answered(200, p)).value.Some?
    ensures p.table.Some? && UnidadeAdministrativa(p.cells).Success?
    ensures AdditionalInfo(itemUrl, Answered(200, p)).value.value ==
              DetailDict(ExtractIdFromUrl(itemUrl), UnidadeAdministrativa(p.cells).value, ScanRows(p.table.value),
                         EditalLink(p.icon), DescricaoCompleta(p.objeto))
  {
  }

  /** Each field of the record depends only on its own part of the page, so a
      part that is missing degrades only its own field. */
  lemma FieldsIndependent(itemUrl: string, p: DetailPage, q: DetailPage)
    requires AdditionalInfo(itemUrl, Answered(200, p)).Success? && AdditionalInfo(itemUrl, Answered(200, p)).value.Some?
    requires AdditionalInfo(itemUrl, Answered(200, q)).Success? && AdditionalInfo(itemUrl, Answered(200, q)).value.Some?
    ensures var dp := AdditionalInfo(itemUrl, Answered(200, p)).value.value;
            var dq := AdditionalInfo(itemUrl, Answered(200, q)).value.value;
            && dp[0] == dq[0]
            && (p.cells == q.cells ==> dp[1] == dq[1])
            && (p.table == q.table ==> dp[2] == dq[2] && dp[3] == dq[3] && dp[4] == dq[4])
            && (p.icon == q.icon ==> dp[5] == dq[5])
            && (p.objeto == q.objeto ==> dp[6] == dq[6])
  {
    RecordOfPage(itemUrl, p);
    RecordOfPage(itemUrl, q);
    var dp := AdditionalInfo(itemUrl, Answered(200, p)).value.value;
    var dq := AdditionalInfo(itemUrl, Answered(200, q)).value.value;
    var id := ExtractIdFromUrl(itemUrl);
    var tp, tq := ScanRows(p.table.value), ScanRows(q.table.value);
    assert dp == DetailDict(id, UnidadeAdministrativa(p.cells).value, tp, EditalLink(p.icon), DescricaoCompleta(p.objeto));
    assert dq == DetailDict(id, UnidadeAdministrativa(q.cells).value, tq, EditalLink(q.icon), DescricaoCompleta(q.objeto));
    DetailDictEntries(id, UnidadeAdministrativa(p.cells).value, tp, EditalLink(p.icon), DescricaoCompleta(p.objeto));
    DetailDictEntries(id, UnidadeAdministrativa(q.cells).value, tq, EditalLink(q.icon), DescricaoCompleta(q.objeto));
  }

  lemma DetailDictEntries(id: string, unidade: string, table: TableFields, edital: string, descricao: string)
    ensures var d := DetailDict(id, unidade, table, edital, descricao);
            && d[0] == ("Id", id) && d[1] == ("Unidade Administrativa", unidade)
            && d[2] == ("Valor Estimado", table.valorEstimado) && d[3] == ("Situação", table.situacao)
            && d[4] == ("Data da Abertura", table.dataAbertura) && d[5] == ("Edital", edital)
            && d[6] == ("Descrição Completa", descricao)
  {
  }

  /** A page without the Unidade Administrativa label gives the same record as
      before with only that field set to the sentinel. */
  lemma MissingLabelDegradesOnlyItsField(itemUrl: string, p: DetailPage, cells: seq<string>)
    requires AdditionalInfo(itemUrl, Answered(200, p)).Success? && AdditionalInfo(itemUrl, Answered(200, p)).value.Some?
    requires forall m :: 0 <= m < |cells| ==> !IsUnidadeLabel(cells[m])
    ensures var dp := AdditionalInfo(itemUrl, Answered(200, p)).value.value;
            AdditionalInfo(itemUrl, Answered(200, p.(cells := cells))) ==
              Success(Some(dp[1 := ("Unidade Administrativa", NotFound)]))
  {
    RecordOfPage(itemUrl, p);
    var q := p.(cells := cells);
    var u := UnidadeAdministrativa(cells);
    assert u == Success(NotFound);
    var t := ScanRows(p.table.value);
    var id := ExtractIdFromUrl(itemUrl);
    var e := EditalLink(p.icon);
    var c := DescricaoCompleta(p.objeto);
    var dq := DetailDict(id, NotFound, t, e, c);
    assert AdditionalInfo(itemUrl, Answered(200, q)) == Success(Some(dq));
    DetailDictReplaceUnidade(id, UnidadeAdministrativa(p.cells).value, t, e, c);
  }

  lemma DetailDictReplaceUnidade(id: string, unidade: string, table: TableFields, edital: string, descricao: string)
    ensures DetailDict(id, unidade, table, edital, descricao)[1 := ("Unidade Administrativa", NotFound)] ==
            DetailDict(id, NotFound, table, edital, descricao)
  {
  }
}
