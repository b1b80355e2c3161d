/** What the scraper reads from a parsed page, reduced to plain values: the
    outcome of each element lookup is an `Option`, each element's text is a
    string, and the fetch of a page is a value too. */
module Page {
  import opened Wrappers

  /** An `<a>` element; `href` is its `href` attribute when it has one. */
  datatype Anchor = Anchor(href: Option<string>)

  /** The `<i class="icon-download">` element with its nearest enclosing `<a>`. */
  datatype Icon = Icon(enclosingAnchor: Option<Anchor>)

  /** The `<h4 class="bolder">` heading whose string is `Objeto`, with the text
      fragments of the first `<div>` after it in document order, if any. */
  datatype Heading = Heading(nextDiv: Option<seq<string>>)

  /** A detail page. `table` is the `table-condensed` table as the texts of
      the `td` cells of each of its rows; `cells` is the text of every `td` of
      the page in document order; `icon` and `objeto` are the download icon
      and the `Objeto` heading, when present. */
  datatype DetailPage = DetailPage(
    table: Option<seq<seq<string>>>,
    cells: seq<string>,
    icon: Option<Icon>,
    objeto: Option<Heading>)

  /** What `requests.get` gives: an exception, or a response with its status
      code and the parsed page. */
  datatype Fetched = Raised | Answered(status: int, page: DetailPage)

  /** The `<span class="title">` of a listing block: its text and the first
      `<a>` inside it. */
  datatype TitleSpan = TitleSpan(text: string, anchor: Option<Anchor>)

  /** A `<div class="span12">` block of the listing: the text of its
      `<small class="muted">` and its title span, when present. */
  datatype Block = Block(date: Option<string>, title: Option<TitleSpan>)

  /** The exceptions that end the whole run. */
  datatype Crash =
    | FetchRaised        // requests.get raised
    | NoDetailTable      // no `table-condensed` table: `None.find_all`
    | NoCellAfterLabel   // no `td` after the Unidade Administrativa label: `None.text`
    | AnchorWithoutHref  // the title's `<a>` has no `href`: KeyError
    | DetailMissing      // the detail fetch was not a 200: `None.get`
}
