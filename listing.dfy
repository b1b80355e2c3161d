/** The loop over the listing's `span12` blocks: one merged record per block,
    appended in document order. */
module Listing {
  import opened Wrappers
  import opened Text
  import opened Dicts
  import opened Page
  import opened Detail

  const DateNotFound: string := "Data não encontrada"
  const TitleNotFound: string := "Título não encontrado"
  const LinkNotFound: string := "Link não encontrado"
  /** The feminine sentinel some `.get` fallbacks of the merge use. */
  const NotFoundFeminine: string := "Não encontrada"

  /** The publication date: the stripped text of `small.muted`, or its sentinel. */
  function PublicationDate(date: Option<string>): (r: string)
    ensures date.None? ==> r == DateNotFound
    ensures date.Some? ==> r == Strip(date.value) && (r == [] || (!IsSpace(r[0]) && !IsSpace(r[|r| - 1])))
  {
    match date
    case Some(text) => Strip(text)
    case None => DateNotFound
  }

  /** The title: the stripped text of `span.title`, or its sentinel. */
  function TitleText(title: Option<TitleSpan>): (r: string)
    ensures title.None? ==> r == TitleNotFound
    ensures title.Some? ==> r == Strip(title.value.text) && (r == [] || (!IsSpace(r[0]) && !IsSpace(r[|r| - 1])))
  {
    match title
    case Some(span) => Strip(span.text)
    case None => TitleNotFound
  }

  /** The link: the `href` of the first `<a>` in the title, its sentinel when
      there is no title or no `<a>`, and a KeyError when the `<a>` has no `href`. */
  function DetailLink(title: Option<TitleSpan>): (r: Result<string, Crash>)
    ensures r.Failure? <==> title.Some? && title.value.anchor.Some? && title.value.anchor.value.href.None?
    ensures r.Failure? ==> r.error == AnchorWithoutHref
    ensures title.Some? && title.value.anchor.Some? && r.Success? ==> title.value.anchor.value.href == Some(r.value)
    ensures title.None? || title.value.anchor.None? ==> r == Success(LinkNotFound)
  {
    match title
    case Some(TitleSpan(_, Some(Anchor(Some(href))))) => Success(href)
    case Some(TitleSpan(_, Some(Anchor(None)))) => Failure(AnchorWithoutHref)
    case _ => Success(LinkNotFound)
  }

  const RecordKeys: seq<string> :=
    [ "Id", "Data da Publicação", "Título", "Link", "Unidade Administrativa", "Valor Estimado",
      "Situação", "Data da Abertura", "Edital", "Descrição Completa" ]

  /** The dict literal `reordered_info`, reading the detail fields with `.get`. */
  function MergeRecord(date: string, title: string, link: string, info: Dict): (d: Dict)
    ensures Keys(d) == RecordKeys && DistinctKeys(d)
  {
    [ ("Id", Get(info, "Id", NotFound)),
      ("Data da Publicação", date),
      ("Título", title),
      ("Link", link),
      ("Unidade Administrativa", Get(info, "Unidade Administrativa", NotFoundFeminine)),
      ("Valor Estimado", Get(info, "Valor Estimado", NotFound)),
      ("Situação", Get(info, "Situação", NotFoundFeminine)),
      ("Data da Abertura", Get(info, "Data da Abertura", NotFoundFeminine)),
      ("Edital", Get(info, "Edital", NotFound)),
      ("Descrição Completa", Get(info, "Descrição Completa", NotFoundFeminine)) ]
  }

  /** The record one block contributes, or the crash it causes. */
  function BlockRecord(b: Block, fetch: string -> Fetched): Result<Dict, Crash> {
    match DetailLink(b.title)
    case Failure(e) => Failure(e)
    case Success(link) =>
      match AdditionalInfo(link, fetch(link))
      case Failure(e) => Failure(e)
      case Success(None) => Failure(DetailMissing)
      case Success(Some(info)) => Success(MergeRecord(PublicationDate(b.date), TitleText(b.title), link, info))
  }

  /** The records a loop gathers by applying `recordOf` to each item in turn,
      or the first crash, which ends the loop. */
  function Collect<T>(items: seq<T>, recordOf: T -> Result<Dict, Crash>): Result<seq<Dict>, Crash>
    decreases |items|
  {
    if items == [] then Success([])
    else
      match Collect(items[..|items| - 1], recordOf)
      case Failure(e) => Failure(e)
      case Success(records) =>
        match recordOf(items[|items| - 1])
        case Failure(e) => Failure(e)
        case Success(d) => Success(records + [d])
  }

  /** Once a prefix has crashed, the whole loop has. */
  lemma {:induction false} CollectFailurePersists<T>(items: seq<T>, recordOf: T -> Result<Dict, Crash>, j: nat)
    requires j <= |items| && Collect(items[..j], recordOf).Failure?
    ensures Collect(items, recordOf) == Collect(items[..j], recordOf)
    decreases |items| - j
  {
    if j < |items| {
      var longer := items[..j + 1];
      assert longer[..|longer| - 1] == items[..j];
      CollectFailurePersists(items, recordOf, j + 1);
    } else {
      assert items[..j] == items;
    }
  }

  /** A completed loop holds exactly one record per item, in item order. */
  lemma {:induction false} CollectOnePerItem<T>(items: seq<T>, recordOf: T -> Result<Dict, Crash>)
    requires Collect(items, recordOf).Success?
    ensures var records := Collect(items, recordOf).value;
            |records| == |items| && forall i :: 0 <= i < |items| ==> recordOf(items[i]) == Success(records[i])
    decreases |items|
  {
    if items != [] {
      var init := items[..|items| - 1];
      CollectOnePerItem(init, recordOf);
      assert forall i :: 0 <= i < |init| ==> init[i] == items[i];
    }
  }

  /** The loop completes exactly when no item crashes. */
  lemma {:induction false} CollectSucceedsIff<T>(items: seq<T>, recordOf: T -> Result<Dict, Crash>)
    ensures Collect(items, recordOf).Success? <==> forall i :: 0 <= i < |items| ==> recordOf(items[i]).Success?
    decreases |items|
  {
    if items != [] {
      var init := items[..|items| - 1];
      CollectSucceedsIff(init, recordOf);
      assert forall i :: 0 <= i < |init| ==> init[i] == items[i];
    }
  }

  /** A crash ends the loop with the reason of the first item that crashes. */
  lemma CollectCrashesAtFirstFailure<T>(items: seq<T>, recordOf: T -> Result<Dict, Crash>, i: nat)
    requires i < |items| && recordOf(items[i]).Failure?
    requires forall m :: 0 <= m < i ==> recordOf(items[m]).Success?
    ensures Collect(items, recordOf) == Failure(recordOf(items[i]).error)
  {
    var prefix := items[..i + 1];
    assert prefix[..i] == items[..i] && prefix[i] == items[i];
    CollectSucceedsIff(items[..i], recordOf);
    assert forall m :: 0 <= m < i ==> items[..i][m] == items[m];
    CollectFailurePersists(items, recordOf, i + 1);
  }

  /** The per-block step of the listing loop for a given fetch. */
  function RecordOf(fetch: string -> Fetched): Block -> Result<Dict, Crash> {
    b => BlockRecord(b, fetch)
  }

  /** `extracted_data` after the loop over `blocks`, or the crash that ended it. */
  function Listing(blocks: seq<Block>, fetch: string -> Fetched): Result<seq<Dict>, Crash> {
    Collect(blocks, RecordOf(fetch))
  }

  /** One turn of the loop: the record it appends is the block's record. */
  lemma BlockStep(block: Block, fetch: string -> Fetched, link: string, detail: Result<Option<Dict>, Crash>)
    requires DetailLink(block.title) == Success(link) && detail == AdditionalInfo(link, fetch(link))
    ensures detail.Failure? ==> BlockRecord(block, fetch) == Failure(detail.error)
    ensures detail == Success(None) ==> BlockRecord(block, fetch) == Failure(DetailMissing)
    ensures detail.Success? && detail.value.Some? ==>
              BlockRecord(block, fetch) == Success(MergeRecord(PublicationDate(block.date), TitleText(block.title), link, detail.value.value))
  {
  }

  /** The loop: one merged record appended per block, until a block crashes. */
  method ExtractListing(blocks: seq<Block>, fetch: string -> Fetched) returns (r: Result<seq<Dict>, Crash>)
    ensures r == Listing(blocks, fetch)
  {
    var recordOf := RecordOf(fetch);
    var extractedData: seq<Dict> := [];
    var i := 0;
    while i < |blocks|
      invariant 0 <= i <= |blocks|
      invariant Collect(blocks[..i], recordOf) == Success(extractedData)
    {
      ghost var prefix := blocks[..i + 1];
      assert prefix[..i] == blocks[..i] && prefix[i] == blocks[i];
      var record := ExtractBlock(blocks[i], fetch);
      assert recordOf(blocks[i]) == record;
      if record.Failure? {
        assert Collect(prefix, recordOf) == Failure(record.error);
        CollectFailurePersists(blocks, recordOf, i + 1);
        return Failure(record.error);
      }
      assert Collect(prefix, recordOf) == Success(extractedData + [record.value]);
      extractedData := extractedData + [record.value];
      i := i + 1;
      assert blocks[..i] == prefix;
    }
    assert blocks[..|blocks|] == blocks;
    return Success(extractedData);
  }

  /** The body of the loop for one block: its date, title and link, the
      detail page of the link, and the merged record. */
  method ExtractBlock(block: Block, fetch: string -> Fetched) returns (r: Result<Dict, Crash>)
    ensures r == BlockRecord(block, fetch)
  {
    var date := if block.date.Some? then Strip(block.date.value) else DateNotFound;
    var title := if block.title.Some? then Strip(block.title.value.text) else TitleNotFound;
    assert date == PublicationDate(block.date) && title == TitleText(block.title);
    var link := LinkNotFound;
    if block.title.Some? && block.title.value.anchor.Some? {
      if block.title.value.anchor.value.href.None? {
        assert DetailLink(block.title) == Failure(AnchorWithoutHref);
        return Failure(AnchorWithoutHref);
      }
      link := block.title.value.anchor.value.href.value;
    }
    assert DetailLink(block.title) == Success(link);
    var additionalInfo := ExtractAdditionalInfo(link, fetch);
    BlockStep(block, fetch, link, additionalInfo);
    if additionalInfo.Failure? {
      return Failure(additionalInfo.error);
    }
    if additionalInfo.value.None? {
      return Failure(DetailMissing);
    }
    var info := additionalInfo.value.value;
    assert BlockRecord(block, fetch) == Success(MergeRecord(date, title, link, info));
    r := Success(MergeRecord(date, title, link, info));
  }

  /** A completed run holds exactly one record per block, in document order. */
  lemma ListingOnePerBlock(blocks: seq<Block>, fetch: string -> Fetched)
    requires Listing(blocks, fetch).Success?
    ensures var records := Listing(blocks, fetch).value;
            |records| == |blocks| && forall i :: 0 <= i < |blocks| ==> BlockRecord(blocks[i], fetch) == Success(records[i])
  {
    CollectOnePerItem(blocks, RecordOf(fetch));
  }

  /** The run completes exactly when no block crashes, and otherwise ends
      with the crash of the first block that does. */
  lemma ListingCrashes(blocks: seq<Block>, fetch: string -> Fetched)
    ensures Listing(blocks, fetch).Success? <==> forall i :: 0 <= i < |blocks| ==> BlockRecord(blocks[i], fetch).Success?
    ensures forall i :: 0 <= i < |blocks| && BlockRecord(blocks[i], fetch).Failure? &&
                        (forall m :: 0 <= m < i ==> BlockRecord(blocks[m], fetch).Success?) ==>
              Listing(blocks, fetch) == Failure(BlockRecord(blocks[i], fetch).error)
  {
    CollectSucceedsIff(blocks, RecordOf(fetch));
    forall i | 0 <= i < |blocks| && BlockRecord(blocks[i], fetch).Failure? &&
               (forall m :: 0 <= m < i ==> BlockRecord(blocks[m], fetch).Success?)
      ensures Listing(blocks, fetch) == Failure(BlockRecord(blocks[i], fetch).error)
    {
      CollectCrashesAtFirstFailure(blocks, RecordOf(fetch), i);
    }
  }

  /** The detail record always holds the seven keys, so none of the merge's
      `.get` fallbacks is ever taken: the merged record is the block's date,
      title and link placed among the detail values, copied as they are. */
  lemma MergeCopiesDetail(link: string, response: Fetched, date: string, title: string)
    requires AdditionalInfo(link, response).Success? && AdditionalInfo(link, response).value.Some?
    ensures var info := AdditionalInfo(link, response).value.value;
            MergeRecord(date, title, link, info) ==
              [ ("Id", info[0].1), ("Data da Publicação", date), ("Título", title), ("Link", link),
                ("Unidade Administrativa", info[1].1), ("Valor Estimado", info[2].1), ("Situação", info[3].1),
                ("Data da Abertura", info[4].1), ("Edital", info[5].1), ("Descrição Completa", info[6].1) ]
  {
    var info := AdditionalInfo(link, response).value.value;
    DetailRecordShape(link, response);
    assert forall k :: 0 <= k < 7 ==> info[k].0 == DetailKeys[k];
    GetPresent(info, 0, NotFound);
    GetPresent(info, 1, NotFoundFeminine);
    GetPresent(info, 2, NotFound);
    GetPresent(info, 3, NotFoundFeminine);
    GetPresent(info, 4, NotFoundFeminine);
    GetPresent(info, 5, NotFound);
    GetPresent(info, 6, NotFoundFeminine);
  }

  /** What a block's record holds: its own date, title and link, each
      defaulting to its own sentinel, the Id of that link, and the detail
      values of the link's page. */
  lemma BlockRecordContents(b: Block, fetch: string -> Fetched)
    requires BlockRecord(b, fetch).Success?
    ensures DetailLink(b.title).Success?
    ensures var link := DetailLink(b.title).value;
            AdditionalInfo(link, fetch(link)).Success? && AdditionalInfo(link, fetch(link)).value.Some?
    ensures var link := DetailLink(b.title).value;
            var info := AdditionalInfo(link, fetch(link)).value.value;
            BlockRecord(b, fetch).value ==
              [ ("Id", IdResolver.ExtractIdFromUrl(link)), ("Data da Publicação", PublicationDate(b.date)),
                ("Título", TitleText(b.title)), ("Link", link),
                ("Unidade Administrativa", info[1].1), ("Valor Estimado", info[2].1), ("Situação", info[3].1),
                ("Data da Abertura", info[4].1), ("Edital", info[5].1), ("Descrição Completa", info[6].1) ]
  {
    var link := DetailLink(b.title).value;
    var detail := AdditionalInfo(link, fetch(link));
    BlockStep(b, fetch, link, detail);
    DetailRecordShape(link, fetch(link));
    MergeCopiesDetail(link, fetch(link), PublicationDate(b.date), TitleText(b.title));
  }
}
