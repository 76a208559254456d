/** The refractiveindex.info helper: the catalog built from the library tree
    (shelf / book / page with DIVIDER headings), the book and page searches
    with their wavelength filter, the lookups that need exactly one catalog
    row, and the translation of a page's dispersion relations into one
    dispersion.

    YAML parsing, the page-name regular expression, float parsing, path
    normalisation, pandas' table reader and rapidfuzz's suggestions are
    parameters (oracles); the data files are a map from catalog path to
    their parsed contents. */
module RefractiveIndexInfo {
  import opened Common

  // ---------------------------------------------------------------------------
  // The library tree (library.yml)

  datatype Page = PageDivider(divider: string) | DataPage(id: string, name: string, data: string)
  datatype Book = BookDivider(divider: string) | DataBook(id: string, name: string, content: seq<Page>)
  datatype Shelf = Shelf(id: string, name: string, content: seq<Book>)

  /** The named groups of the page-name pattern, when it matches. */
  datatype NameInfo = NameInfo(
    authors: string, year: string,
    comment1: Option<string>, comment2: Option<string>,
    lowerRange1: string, upperRange1: string)

  /** One data relation of a page's YAML file: its "type" and, when present,
      its "data" and "coefficients" entries. */
  datatype Relation = Relation(kind: string, data: Option<string>, coefficients: Option<string>)

  /** The parsed YAML file of a page. */
  datatype DataFile = DataFile(references: Option<string>, comments: Option<string>, data: Option<seq<Relation>>)

  /** The foreign parsers the module relies on:
      - pageName: the page-name regular expression (None when it does not match);
      - number: float() / pandas.to_numeric on one token (None when it fails);
      - normpath: os.path.normpath;
      - table2, table3: pandas.read_table on whitespace-separated text with two
        or three named columns. */
  datatype Parsers = Parsers(
    pageName: string -> Option<NameInfo>,
    number: string -> Option<real>,
    normpath: string -> string,
    table2: string -> seq<(real, real)>,
    table3: string -> seq<(real, real, real)>)

  /** The exceptions the helper raises. */
  datatype DatabaseError =
    | NoEntryFound                 // ValueError("No entry found.")
    | FileNotFound(path: string)
    | MissingKey(key: string)      // KeyError on a YAML mapping
    | NotAFloat(token: string)     // ValueError from float()
    | UnimplementedFormat          // ValueError("Unimplemented Format.")
    | WavelengthFilterNotNumeric   // ValueError from the wavelength filter

  // ---------------------------------------------------------------------------
  // Catalog entries

  /** A row of the entry list, before the numeric columns are converted;
      None stands for pandas' NA. */
  datatype Entry = Entry(
    shelf: string, shelfLongname: string, bookDivider: Option<string>,
    book: string, bookLongname: string, page: string, pageType: Option<string>,
    author: Option<string>, year: Option<string>, comment: string,
    lowerRange: Option<string>, upperRange: Option<string>, path: string)

  /** Whether filter(None, ...) keeps a comment group: it must be present and non-empty. */
  predicate Present(c: Option<string>)
  {
    c.Some? && c.value != ""
  }

  /** filter(None, comments): the present, non-empty comments, in order. */
  function Kept(cs: seq<Option<string>>): (r: seq<string>)
    ensures |r| <= |cs|
  {
    if cs == [] then []
    else (if Present(cs[0]) then [cs[0].value] else []) + Kept(cs[1..])
  }

  /** The comment of a page whose name matches: both comment groups, the
      missing and empty ones dropped, joined by a space. */
  function JoinComments(c1: Option<string>, c2: Option<string>): (r: string)
    ensures !Present(c1) && !Present(c2) ==> r == ""
    ensures Present(c1) && !Present(c2) ==> r == c1.value
    ensures !Present(c1) && Present(c2) ==> r == c2.value
    ensures Present(c1) && Present(c2) ==> r == c1.value + " " + c2.value
  {
    var kept := Kept([c1, c2]);
    assert [c1, c2][1..] == [c2] && [c2][1..] == [];
    assert Kept([c2]) == (if Present(c2) then [c2.value] else []) + Kept([]);
    assert kept == (if Present(c1) then [c1.value] else []) + Kept([c2]);
    assert Present(c1) && Present(c2) ==>
      JoinOn(kept, ' ') == c1.value + [' '] + JoinOn([c2.value], ' ') == c1.value + " " + c2.value;
    JoinOn(kept, ' ')
  }

  /** os.path.join("data", p): an absolute p replaces the prefix. */
  function DataPath(p: string): (r: string)
    ensures |p| > 0 && p[0] == '/' ==> r == p
    ensures !(|p| > 0 && p[0] == '/') ==> r == "data/" + p
  {
    if |p| > 0 && p[0] == '/' then p else "data" + "/" + p
  }

  /** The entry for data page p of data book b on shelf sh. */
  function MakeEntry(sh: Shelf, bookDivider: Option<string>, b: Book, p: Page,
                     pageType: Option<string>, parsers: Parsers): (e: Entry)
    requires b.DataBook? && p.DataPage?
    ensures e.shelf == sh.id && e.shelfLongname == sh.name
    ensures e.book == b.id && e.bookLongname == b.name && e.page == p.id
    ensures e.bookDivider == bookDivider && e.pageType == pageType
    ensures e.path == DataPath(parsers.normpath(p.data))
    ensures parsers.pageName(p.name).None? ==>
      e.author.None? && e.year.None? && e.comment == p.name && e.lowerRange.None? && e.upperRange.None?
    ensures parsers.pageName(p.name).Some? ==>
      var info := parsers.pageName(p.name).value;
      e.author == Some(info.authors) && e.year == Some(info.year)
      && e.comment == JoinComments(info.comment1, info.comment2)
      && e.lowerRange == Some(info.lowerRange1) && e.upperRange == Some(info.upperRange1)
  {
    var path := DataPath(parsers.normpath(p.data));
    match parsers.pageName(p.name)
    case None =>
      Entry(sh.id, sh.name, bookDivider, b.id, b.name, p.id, pageType,
            None, None, p.name, None, None, path)
    case Some(info) =>
      Entry(sh.id, sh.name, bookDivider, b.id, b.name, p.id, pageType,
            Some(info.authors), Some(info.year), JoinComments(info.comment1, info.comment2),
            Some(info.lowerRange1), Some(info.upperRange1), path)
  }

  // ---------------------------------------------------------------------------
  // The entries of a prefix of the tree, as the builder loop produces them

  /** The most recent page DIVIDER among `pages` (NA when there is none). */
  function LatestPageDivider(pages: seq<Page>): Option<string>
  {
    if pages == [] then None
    else match pages[|pages| - 1]
      case PageDivider(d) => Some(d)
      case DataPage(_, _, _) => LatestPageDivider(pages[..|pages| - 1])
  }

  /** The most recent book DIVIDER among `books` (NA when there is none). */
  function LatestBookDivider(books: seq<Book>): Option<string>
  {
    if books == [] then None
    else match books[|books| - 1]
      case BookDivider(d) => Some(d)
      case DataBook(_, _, _) => LatestBookDivider(books[..|books| - 1])
  }

  /** The entries for the pages `pages` of data book b. */
  function BookEntries(sh: Shelf, bookDivider: Option<string>, b: Book, pages: seq<Page>,
                       parsers: Parsers): seq<Entry>
    requires b.DataBook?
  {
    if pages == [] then []
    else
      var init := pages[..|pages| - 1];
      var p := pages[|pages| - 1];
      BookEntries(sh, bookDivider, b, init, parsers)
      + (if p.DataPage? then [MakeEntry(sh, bookDivider, b, p, LatestPageDivider(init), parsers)] else [])
  }

  /** The entries for the books `books` of shelf sh. */
  function ShelfEntries(sh: Shelf, books: seq<Book>, parsers: Parsers): seq<Entry>
  {
    if books == [] then []
    else
      var init := books[..|books| - 1];
      var b := books[|books| - 1];
      ShelfEntries(sh, init, parsers)
      + (if b.DataBook? then BookEntries(sh, LatestBookDivider(init), b, b.content, parsers) else [])
  }

  /** The entries for the shelves `library`. */
  function LibraryEntries(library: seq<Shelf>, parsers: Parsers): seq<Entry>
  {
    if library == [] then []
    else
      var sh := library[|library| - 1];
      LibraryEntries(library[..|library| - 1], parsers) + ShelfEntries(sh, sh.content, parsers)
  }

  /** The innermost loop of the catalog builder: the pages of one data
      book, with the page divider reset at the start of the book. */
  method CollectBookEntries(sh: Shelf, bookDivider: Option<string>, b: Book, parsers: Parsers)
    returns (entries: seq<Entry>)
    requires b.DataBook?
    ensures entries == BookEntries(sh, bookDivider, b, b.content, parsers)
  {
    var pages := b.content;
    entries := [];
    var pageType: Option<string> := None;
    var p := 0;
    while p < |pages|
      invariant 0 <= p <= |pages|
      invariant pageType == LatestPageDivider(pages[..p])
      invariant entries == BookEntries(sh, bookDivider, b, pages[..p], parsers)
    {
      assert pages[..p + 1][..p] == pages[..p];
      match pages[p] {
        case PageDivider(d) =>
          pageType := Some(d);
        case DataPage(_, _, _) =>
          entries := entries + [MakeEntry(sh, bookDivider, b, pages[p], pageType, parsers)];
      }
      p := p + 1;
    }
    assert pages[..p] == pages;
  }

  /** The middle loop: the books of one shelf, with the book divider reset at
      the start of the shelf. */
  method CollectShelfEntries(sh: Shelf, parsers: Parsers) returns (entries: seq<Entry>)
    ensures entries == ShelfEntries(sh, sh.content, parsers)
  {
    var books := sh.content;
    entries := [];
    var bookDivider: Option<string> := None;
    var b := 0;
    while b < |books|
      invariant 0 <= b <= |books|
      invariant bookDivider == LatestBookDivider(books[..b])
      invariant entries == ShelfEntries(sh, books[..b], parsers)
    {
      assert books[..b + 1][..b] == books[..b];
      match books[b] {
        case BookDivider(d) =>
          bookDivider := Some(d);
        case DataBook(_, _, _) =>
          var more := CollectBookEntries(sh, bookDivider, books[b], parsers);
          entries := entries + more;
      }
      b := b + 1;
    }
    assert books[..b] == books;
  }

  /** The catalog builder's outer loop over the shelves. */
  method CollectEntries(library: seq<Shelf>, parsers: Parsers) returns (entries: seq<Entry>)
    ensures entries == LibraryEntries(library, parsers)
  {
    entries := [];
    var s := 0;
    while s < |library|
      invariant 0 <= s <= |library|
      invariant entries == LibraryEntries(library[..s], parsers)
    {
      assert library[..s + 1][..s] == library[..s];
      var more := CollectShelfEntries(library[s], parsers);
      entries := entries + more;
      s := s + 1;
    }
    assert library[..s] == library;
  }

  // ---------------------------------------------------------------------------
  // What the entry list contains

  /** Position i holds the last DIVIDER page of `pages`. */
  predicate IsLastPageDivider(pages: seq<Page>, i: int)
  {
    0 <= i < |pages| && pages[i].PageDivider?
    && forall j :: i < j < |pages| ==> !pages[j].PageDivider?
  }

  /** The latest page divider is NA exactly when there is no DIVIDER page. */
  lemma {:induction false} LatestPageDividerNone(pages: seq<Page>)
    ensures LatestPageDivider(pages).None? <==> forall i :: 0 <= i < |pages| ==> !pages[i].PageDivider?
  {
    if pages != [] {
      var n := |pages| - 1;
      LatestPageDividerNone(pages[..n]);
      assert forall i :: 0 <= i < n ==> pages[..n][i] == pages[i];
    }
  }

  /** The latest page divider is the divider of the last DIVIDER page. */
  lemma {:induction false} LatestPageDividerIsLast(pages: seq<Page>, i: int)
    requires IsLastPageDivider(pages, i)
    ensures LatestPageDivider(pages) == Some(pages[i].divider)
  {
    var n := |pages| - 1;
    if i < n {
      assert !pages[n].PageDivider?;
      assert IsLastPageDivider(pages[..n], i) by {
        assert forall j :: i < j < n ==> pages[..n][j] == pages[j];
      }
      LatestPageDividerIsLast(pages[..n], i);
    }
  }

  /** A latest page divider is the divider of some last DIVIDER page. */
  lemma {:induction false} LatestPageDividerFound(pages: seq<Page>)
    requires LatestPageDivider(pages).Some?
    ensures exists i :: IsLastPageDivider(pages, i) && LatestPageDivider(pages).value == pages[i].divider
  {
    var n := |pages| - 1;
    if pages[n].PageDivider? {
      assert IsLastPageDivider(pages, n);
    } else {
      var init := pages[..n];
      LatestPageDividerFound(init);
      var i :| IsLastPageDivider(init, i) && LatestPageDivider(init).value == init[i].divider;
      assert forall j :: i < j < n ==> init[j] == pages[j];
      assert IsLastPageDivider(pages, i);
    }
  }

  /** Position i holds the last DIVIDER book of `books`. */
  predicate IsLastBookDivider(books: seq<Book>, i: int)
  {
    0 <= i < |books| && books[i].BookDivider?
    && forall j :: i < j < |books| ==> !books[j].BookDivider?
  }

  /** The latest book divider is NA exactly when there is no DIVIDER book. */
  lemma {:induction false} LatestBookDividerNone(books: seq<Book>)
    ensures LatestBookDivider(books).None? <==> forall i :: 0 <= i < |books| ==> !books[i].BookDivider?
  {
    if books != [] {
      var n := |books| - 1;
      LatestBookDividerNone(books[..n]);
      assert forall i :: 0 <= i < n ==> books[..n][i] == books[i];
    }
  }

  /** The latest book divider is the divider of the last DIVIDER book. */
  lemma {:induction false} LatestBookDividerIsLast(books: seq<Book>, i: int)
    requires IsLastBookDivider(books, i)
    ensures LatestBookDivider(books) == Some(books[i].divider)
  {
    var n := |books| - 1;
    if i < n {
      assert !books[n].BookDivider?;
      assert IsLastBookDivider(books[..n], i) by {
        assert forall j :: i < j < n ==> books[..n][j] == books[j];
      }
      LatestBookDividerIsLast(books[..n], i);
    }
  }

  /** A latest book divider is the divider of some last DIVIDER book. */
  lemma {:induction false} LatestBookDividerFound(books: seq<Book>)
    requires LatestBookDivider(books).Some?
    ensures exists i :: IsLastBookDivider(books, i) && LatestBookDivider(books).value == books[i].divider
  {
    var n := |books| - 1;
    if books[n].BookDivider? {
      assert IsLastBookDivider(books, n);
    } else {
      var init := books[..n];
      LatestBookDividerFound(init);
      var i :| IsLastBookDivider(init, i) && LatestBookDivider(init).value == init[i].divider;
      assert forall j :: i < j < n ==> init[j] == books[j];
      assert IsLastBookDivider(books, i);
    }
  }

  /** Every entry of a book comes from one of its data pages, with the page
      divider in force just before that page. */
  lemma {:induction false} BookEntryOrigin(sh: Shelf, bookDivider: Option<string>, b: Book,
                                           pages: seq<Page>, parsers: Parsers, k: nat)
    requires b.DataBook? && k < |BookEntries(sh, bookDivider, b, pages, parsers)|
    ensures exists i :: (0 <= i < |pages| && pages[i].DataPage? &&
                         BookEntries(sh, bookDivider, b, pages, parsers)[k]
                         == MakeEntry(sh, bookDivider, b, pages[i], LatestPageDivider(pages[..i]), parsers))
  {
    var init := pages[..|pages| - 1];
    var n := |pages| - 1;
    var before := BookEntries(sh, bookDivider, b, init, parsers);
    if k < |before| {
      BookEntryOrigin(sh, bookDivider, b, init, parsers, k);
      var i :| 0 <= i < |init| && init[i].DataPage?
        && before[k] == MakeEntry(sh, bookDivider, b, init[i], LatestPageDivider(init[..i]), parsers);
      assert init[..i] == pages[..i];
      assert pages[i] == init[i];
    } else {
      assert pages[..n] == init;
      assert pages[n].DataPage?;
    }
  }

  /** Every entry of a shelf comes from one of its data books, with the book
      divider in force just before that book. */
  lemma {:induction false} ShelfEntryOrigin(sh: Shelf, books: seq<Book>, parsers: Parsers, k: nat)
    requires k < |ShelfEntries(sh, books, parsers)|
    ensures exists i :: (0 <= i < |books| && books[i].DataBook? &&
                         ShelfEntries(sh, books, parsers)[k]
                         in BookEntries(sh, LatestBookDivider(books[..i]), books[i], books[i].content, parsers))
  {
    var n := |books| - 1;
    var init := books[..n];
    var before := ShelfEntries(sh, init, parsers);
    var b := books[n];
    var here := if b.DataBook? then BookEntries(sh, LatestBookDivider(init), b, b.content, parsers) else [];
    var all := ShelfEntries(sh, books, parsers);
    assert all == before + here;
    if k < |before| {
      assert all[k] == before[k];
      ShelfEntryOrigin(sh, init, parsers, k);
      var i :| 0 <= i < |init| && init[i].DataBook?
        && before[k] in BookEntries(sh, LatestBookDivider(init[..i]), init[i], init[i].content, parsers);
      assert init[..i] == books[..i];
      assert books[i] == init[i];
    } else {
      assert all[k] == here[k - |before|];
      assert b.DataBook?;
    }
  }

  /** Position (s, i, j) of the library is data page j of data book i of
      shelf s. */
  predicate DataPageAt(library: seq<Shelf>, s: int, i: int, j: int)
  {
    && 0 <= s < |library|
    && 0 <= i < |library[s].content| && library[s].content[i].DataBook?
    && 0 <= j < |library[s].content[i].content| && library[s].content[i].content[j].DataPage?
  }

  /** The entry the builder makes for the data page at (s, i, j), with the
      latest book divider before the book and the latest page divider before
      the page. */
  function EntryAt(library: seq<Shelf>, s: int, i: int, j: int, parsers: Parsers): Entry
    requires DataPageAt(library, s, i, j)
  {
    var sh := library[s];
    var b := sh.content[i];
    MakeEntry(sh, LatestBookDivider(sh.content[..i]), b, b.content[j], LatestPageDivider(b.content[..j]), parsers)
  }

  /** Every entry of the library comes from one of its data pages. */
  lemma {:induction false} LibraryEntryOrigin(library: seq<Shelf>, parsers: Parsers, k: nat)
    requires k < |LibraryEntries(library, parsers)|
    ensures exists s, i, j :: (DataPageAt(library, s, i, j)
                               && LibraryEntries(library, parsers)[k] == EntryAt(library, s, i, j, parsers))
  {
    var n := |library| - 1;
    var init := library[..n];
    var sh := library[n];
    var before := LibraryEntries(init, parsers);
    if k < |before| {
      LibraryEntryOrigin(init, parsers, k);
      var s, i, j :| DataPageAt(init, s, i, j) && before[k] == EntryAt(init, s, i, j, parsers);
      assert library[s] == init[s];
      assert DataPageAt(library, s, i, j);
    } else {
      var m := k - |before|;
      var shelfEntries := ShelfEntries(sh, sh.content, parsers);
      assert LibraryEntries(library, parsers)[k] == shelfEntries[m];
      ShelfEntryOrigin(sh, sh.content, parsers, m);
      var i :| 0 <= i < |sh.content| && sh.content[i].DataBook?
        && shelfEntries[m] in BookEntries(sh, LatestBookDivider(sh.content[..i]), sh.content[i], sh.content[i].content, parsers);
      var b := sh.content[i];
      var bookDivider := LatestBookDivider(sh.content[..i]);
      var bookEntries := BookEntries(sh, bookDivider, b, b.content, parsers);
      var q :| 0 <= q < |bookEntries| && bookEntries[q] == shelfEntries[m];
      BookEntryOrigin(sh, bookDivider, b, b.content, parsers, q);
      var j :| 0 <= j < |b.content| && b.content[j].DataPage?
        && bookEntries[q] == MakeEntry(sh, bookDivider, b, b.content[j], LatestPageDivider(b.content[..j]), parsers);
      assert DataPageAt(library, n, i, j);
    }
  }

  /** Shelf, book and page identifiers of an entry. */
  function Key(e: Entry): (string, string, string)
  {
    (e.shelf, e.book, e.page)
  }

  function Keys(es: seq<Entry>): (r: seq<(string, string, string)>)
    ensures |r| == |es| && forall k :: 0 <= k < |es| ==> r[k] == Key(es[k])
  {
    seq(|es|, k requires 0 <= k < |es| => Key(es[k]))
  }

  /** The identifiers of the data pages of a data book, dividers ignored. */
  function PageKeys(sh: Shelf, b: Book, pages: seq<Page>): seq<(string, string, string)>
    requires b.DataBook?
  {
    if pages == [] then []
    else
      var p := pages[|pages| - 1];
      PageKeys(sh, b, pages[..|pages| - 1]) + (if p.DataPage? then [(sh.id, b.id, p.id)] else [])
  }

  /** The identifiers of the data pages in the data books of a shelf. */
  function BookKeys(sh: Shelf, books: seq<Book>): seq<(string, string, string)>
  {
    if books == [] then []
    else
      var b := books[|books| - 1];
      BookKeys(sh, books[..|books| - 1]) + (if b.DataBook? then PageKeys(sh, b, b.content) else [])
  }

  /** The identifiers of every data page in a data book, shelf by shelf. */
  function LibraryKeys(library: seq<Shelf>): seq<(string, string, string)>
  {
    if library == [] then []
    else
      var sh := library[|library| - 1];
      LibraryKeys(library[..|library| - 1]) + BookKeys(sh, sh.content)
  }

  lemma KeysAppend(a: seq<Entry>, b: seq<Entry>)
    ensures Keys(a + b) == Keys(a) + Keys(b)
  {
  }

  lemma {:induction false} BookEntriesKeys(sh: Shelf, bookDivider: Option<string>, b: Book,
                                           pages: seq<Page>, parsers: Parsers)
    requires b.DataBook?
    ensures Keys(BookEntries(sh, bookDivider, b, pages, parsers)) == PageKeys(sh, b, pages)
  {
    if pages != [] {
      var init := pages[..|pages| - 1];
      var p := pages[|pages| - 1];
      BookEntriesKeys(sh, bookDivider, b, init, parsers);
      KeysAppend(BookEntries(sh, bookDivider, b, init, parsers),
                 if p.DataPage? then [MakeEntry(sh, bookDivider, b, p, LatestPageDivider(init), parsers)] else []);
    }
  }

  lemma {:induction false} ShelfEntriesKeys(sh: Shelf, books: seq<Book>, parsers: Parsers)
    ensures Keys(ShelfEntries(sh, books, parsers)) == BookKeys(sh, books)
  {
    if books != [] {
      var init := books[..|books| - 1];
      var b := books[|books| - 1];
      ShelfEntriesKeys(sh, init, parsers);
      if b.DataBook? {
        BookEntriesKeys(sh, LatestBookDivider(init), b, b.content, parsers);
      }
      KeysAppend(ShelfEntries(sh, init, parsers),
                 if b.DataBook? then BookEntries(sh, LatestBookDivider(init), b, b.content, parsers) else []);
    }
  }

  /** The catalog holds exactly one entry per page that is not a DIVIDER,
      inside a book that is not a DIVIDER, in the order of the library. */
  lemma {:induction false} OneEntryPerDataPage(library: seq<Shelf>, parsers: Parsers)
    ensures Keys(LibraryEntries(library, parsers)) == LibraryKeys(library)
  {
    if library != [] {
      var init := library[..|library| - 1];
      var sh := library[|library| - 1];
      OneEntryPerDataPage(init, parsers);
      ShelfEntriesKeys(sh, sh.content, parsers);
      KeysAppend(LibraryEntries(init, parsers), ShelfEntries(sh, sh.content, parsers));
    }
  }

  // ---------------------------------------------------------------------------
  // The catalog data frame

  /** A catalog row: the entry with year and ranges made numeric (NA when the
      text does not parse) and the ranges converted from µm to nm. */
  datatype Row = Row(
    shelf: string, shelfLongname: string, bookDivider: Option<string>,
    book: string, bookLongname: string, page: string, pageType: Option<string>,
    author: Option<string>, year: Option<real>, comment: string,
    lowerRange: Option<real>, upperRange: Option<real>, path: string)

  /** pandas.to_numeric(..., errors="coerce") on one cell. */
  function Numeric(cell: Option<string>, number: string -> Option<real>): (r: Option<real>)
    ensures r.Some? <==> cell.Some? && number(cell.value).Some?
    ensures r.Some? ==> r.value == number(cell.value).value
  {
    if cell.Some? then number(cell.value) else None
  }

  /** 1000 * to_numeric(...): a range in µm as a range in nm. */
  function Nanometres(cell: Option<string>, number: string -> Option<real>): (r: Option<real>)
    ensures r.Some? <==> Numeric(cell, number).Some?
    ensures r.Some? ==> r.value == 1000.0 * number(cell.value).value
  {
    match Numeric(cell, number)
    case None => None
    case Some(x) => Some(1000.0 * x)
  }

  function ToRow(e: Entry, number: string -> Option<real>): (r: Row)
  {
    Row(e.shelf, e.shelfLongname, e.bookDivider, e.book, e.bookLongname, e.page, e.pageType,
        e.author, Numeric(e.year, number), e.comment,
        Nanometres(e.lowerRange, number), Nanometres(e.upperRange, number), e.path)
  }

  function Catalog(entries: seq<Entry>, number: string -> Option<real>): (rows: seq<Row>)
    ensures |rows| == |entries|
    ensures forall k :: 0 <= k < |rows| ==> rows[k] == ToRow(entries[k], number)
  {
    seq(|entries|, k requires 0 <= k < |entries| => ToRow(entries[k], number))
  }

  /** What the catalog row of data page p holds: the identifiers, long
      names and dividers of its place in the tree; its file path normalised
      and put under data/ unless absolute; and, from its name, when the
      page-name pattern does not match, NA author, year and ranges and the
      whole name as the comment, and when it matches, the authors, the year as
      a number (NA when it does not parse), the joined comments, and each range
      as 1000 times its µm value when it parses and NA otherwise. */
  predicate RowOfPage(row: Row, sh: Shelf, bookDivider: Option<string>, b: Book, p: Page,
                      pageType: Option<string>, parsers: Parsers)
    requires b.DataBook? && p.DataPage?
  {
    var path := parsers.normpath(p.data);
    && row.shelf == sh.id && row.shelfLongname == sh.name && row.bookDivider == bookDivider
    && row.book == b.id && row.bookLongname == b.name && row.page == p.id && row.pageType == pageType
    && (|path| > 0 && path[0] == '/' ==> row.path == path)
    && (!(|path| > 0 && path[0] == '/') ==> row.path == "data/" + path)
    && match parsers.pageName(p.name)
       case None =>
         && row.author.None? && row.year.None? && row.comment == p.name
         && row.lowerRange.None? && row.upperRange.None?
       case Some(info) =>
         && row.author == Some(info.authors)
         && row.year == parsers.number(info.year)
         && row.comment == JoinComments(info.comment1, info.comment2)
         && (row.lowerRange.Some? <==> parsers.number(info.lowerRange1).Some?)
         && (row.lowerRange.Some? ==> row.lowerRange.value == 1000.0 * parsers.number(info.lowerRange1).value)
         && (row.upperRange.Some? <==> parsers.number(info.upperRange1).Some?)
         && (row.upperRange.Some? ==> row.upperRange.value == 1000.0 * parsers.number(info.upperRange1).value)
  }

  /** Every catalog row is the row of one data page of the library, read
      as the builder reads it. */
  lemma CatalogRowOrigin(library: seq<Shelf>, parsers: Parsers, k: nat)
    requires k < |Catalog(LibraryEntries(library, parsers), parsers.number)|
    ensures exists s, i, j :: (DataPageAt(library, s, i, j)
      && var sh := library[s];
         var b := sh.content[i];
         RowOfPage(Catalog(LibraryEntries(library, parsers), parsers.number)[k],
                   sh, LatestBookDivider(sh.content[..i]), b, b.content[j], LatestPageDivider(b.content[..j]),
                   parsers))
  {
    LibraryEntryOrigin(library, parsers, k);
    var s, i, j :| DataPageAt(library, s, i, j) && LibraryEntries(library, parsers)[k] == EntryAt(library, s, i, j, parsers);
    var sh := library[s];
    var b := sh.content[i];
    assert RowOfPage(Catalog(LibraryEntries(library, parsers), parsers.number)[k],
                     sh, LatestBookDivider(sh.content[..i]), b, b.content[j], LatestPageDivider(b.content[..j]),
                     parsers);
  }

  /** The three searchable columns. */
  datatype Field = BookField | BookLongnameField | PageField

  function FieldOf(r: Row, f: Field): string
  {
    match f
    case BookField => r.book
    case BookLongnameField => r.bookLongname
    case PageField => r.page
  }

  function Column(rows: seq<Row>, f: Field): (c: seq<string>)
    ensures |c| == |rows| && forall k :: 0 <= k < |rows| ==> c[k] == FieldOf(rows[k], f)
  {
    seq(|rows|, k requires 0 <= k < |rows| => FieldOf(rows[k], f))
  }

  /** Series.unique(): each value once, in order of first appearance. */
  function Unique(s: seq<string>): (r: seq<string>)
    ensures forall x :: x in r <==> x in s
    ensures forall i, j :: 0 <= i < j < |r| ==> r[i] != r[j]
  {
    if s == [] then []
    else
      var u := Unique(s[..|s| - 1]);
      var x := s[|s| - 1];
      assert forall y :: y in s <==> y in s[..|s| - 1] || y == x;
      if x in u then u else u + [x]
  }

  // ---------------------------------------------------------------------------
  // Searching

  /** catalog.loc[catalog[field] == v]: the rows whose field equals v, in order. */
  function WhereEquals(rows: seq<Row>, f: Field, v: string): (r: seq<Row>)
    ensures |r| <= |rows|
    ensures forall x :: x in r <==> x in rows && FieldOf(x, f) == v
  {
    if rows == [] then []
    else (if FieldOf(rows[0], f) == v then [rows[0]] else []) + WhereEquals(rows[1..], f, v)
  }

  /** The exact matches keep the catalog order. */
  lemma {:induction false} WhereEqualsSubsequence(rows: seq<Row>, f: Field, v: string)
    ensures IsSubsequence(WhereEquals(rows, f, v), rows)
  {
    if rows != [] {
      WhereEqualsSubsequence(rows[1..], f, v);
      var rest := WhereEquals(rows[1..], f, v);
      if FieldOf(rows[0], f) == v {
        assert ([rows[0]] + rest)[1..] == rest;
      } else {
        assert WhereEquals(rows, f, v) == rest;
        assert rest != [] ==> rest[0] in rest;
      }
    }
  }

  /** The exact matches keep every matching row as often as the rows hold it,
      and nothing else. */
  lemma {:induction false} WhereEqualsCounts(rows: seq<Row>, f: Field, v: string, x: Row)
    ensures multiset(WhereEquals(rows, f, v))[x] == (if FieldOf(x, f) == v then multiset(rows)[x] else 0)
  {
    if rows != [] {
      var rest := WhereEquals(rows[1..], f, v);
      WhereEqualsCounts(rows[1..], f, v, x);
      assert multiset(rows) == multiset{rows[0]} + multiset(rows[1..]) by {
        assert rows == [rows[0]] + rows[1..];
      }
      assert WhereEquals(rows, f, v) == (if FieldOf(rows[0], f) == v then [rows[0]] else []) + rest;
    }
  }

  /** pd.concat of the exact matches of each suggestion, in suggestion order. */
  function MatchesOfEach(rows: seq<Row>, f: Field, names: seq<string>): (r: seq<Row>)
    ensures forall x :: x in r <==> x in rows && FieldOf(x, f) in names
  {
    if names == [] then []
    else
      assert forall y :: y in names <==> y == names[0] || y in names[1..];
      WhereEquals(rows, f, names[0]) + MatchesOfEach(rows, f, names[1..])
  }

  /** The concatenated matches hold a row once per suggestion equal to its
      field, times its count in the rows. */
  lemma {:induction false} MatchesOfEachCounts(rows: seq<Row>, f: Field, names: seq<string>, x: Row)
    ensures multiset(MatchesOfEach(rows, f, names))[x] == multiset(names)[FieldOf(x, f)] * multiset(rows)[x]
  {
    if names != [] {
      var v, c, tail := FieldOf(x, f), multiset(rows)[x], names[1..];
      MatchesOfEachCounts(rows, f, tail, x);
      WhereEqualsCounts(rows, f, names[0], x);
      HeadCount(names, v);
      var first := WhereEquals(rows, f, names[0]);
      assert multiset(MatchesOfEach(rows, f, names)) == multiset(first) + multiset(MatchesOfEach(rows, f, tail));
      if names[0] == v {
        MulSucc(multiset(tail)[v], c);
      }
    }
  }

  /** How often v occurs in a non-empty list: at its head, then in its tail. */
  lemma HeadCount(names: seq<string>, v: string)
    requires names != []
    ensures multiset(names)[v] == (if names[0] == v then 1 else 0) + multiset(names[1..])[v]
  {
    assert names == [names[0]] + names[1..];
  }

  /** With distinct suggestions the matches hold a row as often as the rows
      do when its field is suggested, and not at all otherwise. */
  lemma {:induction false} MatchesOfEachDistinctCounts(rows: seq<Row>, f: Field, names: seq<string>, x: Row)
    requires forall i, j :: 0 <= i < j < |names| ==> names[i] != names[j]
    ensures multiset(MatchesOfEach(rows, f, names))[x] == (if FieldOf(x, f) in names then multiset(rows)[x] else 0)
  {
    if names != [] {
      DistinctTail(names);
      MatchesOfEachDistinctCounts(rows, f, names[1..], x);
      WhereEqualsCounts(rows, f, names[0], x);
      assert forall y :: y in names <==> y == names[0] || y in names[1..];
    }
  }

  /** Position of the first occurrence of a name among the suggestions;
      |names| when it is not one of them. */
  function IndexOf(names: seq<string>, x: string): (i: nat)
    ensures i <= |names|
    ensures i < |names| <==> x in names
    ensures i < |names| ==> names[i] == x
  {
    if names == [] then 0
    else if names[0] == x then 0
    else 1 + IndexOf(names[1..], x)
  }

  /** The rank of a row: the position among the suggestions of its field. */
  function SuggestionRank(names: seq<string>, f: Field, x: Row): int
  {
    IndexOf(names, FieldOf(x, f))
  }

  /** Rows come in the order of the suggestion their field equals. */
  predicate InSuggestionOrder(rows: seq<Row>, f: Field, names: seq<string>)
  {
    forall i, j :: 0 <= i < j < |rows| ==> SuggestionRank(names, f, rows[i]) <= SuggestionRank(names, f, rows[j])
  }

  /** A sequence all of whose rows have field v is its own filter on v. */
  lemma {:induction false} WhereEqualsAll(rows: seq<Row>, f: Field, v: string)
    requires forall x :: x in rows ==> FieldOf(x, f) == v
    ensures WhereEquals(rows, f, v) == rows
  {
    if rows != [] {
      calc {
        WhereEquals(rows, f, v);
        { assert rows[0] in rows; }
        [rows[0]] + WhereEquals(rows[1..], f, v);
        { assert forall x :: x in rows[1..] ==> x in rows;
          WhereEqualsAll(rows[1..], f, v); }
        [rows[0]] + rows[1..];
        rows;
      }
    }
  }

  lemma {:induction false} WhereEqualsAppend(a: seq<Row>, b: seq<Row>, f: Field, v: string)
    ensures WhereEquals(a + b, f, v) == WhereEquals(a, f, v) + WhereEquals(b, f, v)
  {
    if a == [] {
      assert a + b == b;
    } else {
      var ab := a + b;
      assert ab[0] == a[0];
      assert ab[1..] == a[1..] + b;
      WhereEqualsAppend(a[1..], b, f, v);
      var ra := WhereEquals(a[1..], f, v);
      var rb := WhereEquals(b, f, v);
      if FieldOf(a[0], f) == v {
        assert WhereEquals(ab, f, v) == [a[0]] + (ra + rb);
        assert [a[0]] + (ra + rb) == ([a[0]] + ra) + rb;
      } else {
        assert WhereEquals(ab, f, v) == ra + rb;
      }
    }
  }

  lemma DistinctTail(names: seq<string>)
    requires names != []
    requires forall i, j :: 0 <= i < j < |names| ==> names[i] != names[j]
    ensures forall i, j :: 0 <= i < j < |names[1..]| ==> names[1..][i] != names[1..][j]
    ensures names[0] !in names[1..]
  {
    forall i, j | 0 <= i < j < |names[1..]| ensures names[1..][i] != names[1..][j] {
      assert names[1..][i] == names[i + 1] && names[1..][j] == names[j + 1];
    }
  }

  /** With distinct suggestions, the concatenation is ordered by the
      suggestion each row matches: the rows of the first suggestion, then
      those of the second, and so on. */
  lemma {:induction false} MatchesOfEachOrder(rows: seq<Row>, f: Field, names: seq<string>)
    requires forall i, j :: 0 <= i < j < |names| ==> names[i] != names[j]
    ensures InSuggestionOrder(MatchesOfEach(rows, f, names), f, names)
  {
    if names != [] {
      var first := WhereEquals(rows, f, names[0]);
      var rest := MatchesOfEach(rows, f, names[1..]);
      var r := first + rest;
      DistinctTail(names);
      MatchesOfEachOrder(rows, f, names[1..]);
      forall i, j | 0 <= i < j < |r| ensures SuggestionRank(names, f, r[i]) <= SuggestionRank(names, f, r[j]) {
        if i < |first| {
          assert r[i] in first;
        } else {
          assert r[i] == rest[i - |first|] && r[j] == rest[j - |first|];
          assert r[i] in rest && r[j] in rest;
        }
      }
    }
  }

  /** No row has field v: the filter on v is empty. */
  lemma WhereEqualsNone(rows: seq<Row>, f: Field, v: string)
    requires forall x :: x in rows ==> FieldOf(x, f) != v
    ensures WhereEquals(rows, f, v) == []
  {
  }

  /** The matches of the later suggestions hold no row of the first one. */
  lemma LaterMatchesAvoidFirst(rows: seq<Row>, f: Field, names: seq<string>)
    requires names != []
    requires forall i, j :: 0 <= i < j < |names| ==> names[i] != names[j]
    ensures WhereEquals(MatchesOfEach(rows, f, names[1..]), f, names[0]) == []
  {
    DistinctTail(names);
    WhereEqualsNone(MatchesOfEach(rows, f, names[1..]), f, names[0]);
  }

  /** The matches of the first suggestion hold no row of a later one. */
  lemma FirstMatchesAvoidLater(rows: seq<Row>, f: Field, names: seq<string>, p: nat)
    requires 0 < p < |names|
    requires names[0] != names[p]
    ensures WhereEquals(WhereEquals(rows, f, names[0]), f, names[p]) == []
  {
    WhereEqualsNone(WhereEquals(rows, f, names[0]), f, names[p]);
  }

  /** With distinct suggestions, the rows of the concatenation that match one
      suggestion are exactly that suggestion's exact matches, in catalog
      order. */
  lemma {:induction false} MatchesOfEachBlocks(rows: seq<Row>, f: Field, names: seq<string>, p: nat)
    requires forall i, j :: 0 <= i < j < |names| ==> names[i] != names[j]
    requires p < |names|
    ensures WhereEquals(MatchesOfEach(rows, f, names), f, names[p]) == WhereEquals(rows, f, names[p])
  {
    var v := names[p];
    var first := WhereEquals(rows, f, names[0]);
    var rest := MatchesOfEach(rows, f, names[1..]);
    if p == 0 {
      calc {
        WhereEquals(MatchesOfEach(rows, f, names), f, v);
        WhereEquals(first + rest, f, v);
        { WhereEqualsAppend(first, rest, f, v); }
        WhereEquals(first, f, v) + WhereEquals(rest, f, v);
        { WhereEqualsAll(first, f, v); LaterMatchesAvoidFirst(rows, f, names); }
        first + [];
      }
    } else {
      calc {
        WhereEquals(MatchesOfEach(rows, f, names), f, v);
        WhereEquals(first + rest, f, v);
        { WhereEqualsAppend(first, rest, f, v); }
        WhereEquals(first, f, v) + WhereEquals(rest, f, v);
        { FirstMatchesAvoidLater(rows, f, names, p); }
        [] + WhereEquals(rest, f, v);
        { DistinctTail(names);
          assert v == names[1..][p - 1];
          MatchesOfEachBlocks(rows, f, names[1..], p - 1); }
        WhereEquals(rows, f, v);
      }
    }
  }

  /** The wavelength_filter argument: None, a number, a list or tuple of
      numbers, or a value of any other type. */
  datatype WavelengthFilter = NoFilter | Single(wl: real) | Several(wls: seq<real>) | Unsupported

  /** lower_range <= wl <= upper_range; an NA bound compares false. */
  predicate Covers(r: Row, wl: real)
  {
    r.lowerRange.Some? && r.upperRange.Some? && r.lowerRange.value <= wl <= r.upperRange.value
  }

  /** The rows whose range contains wl, in order. */
  function Covering(rows: seq<Row>, wl: real): (r: seq<Row>)
    ensures |r| <= |rows|
    ensures forall x :: x in r <==> x in rows && Covers(x, wl)
    ensures IsSubsequence(r, rows)
  {
    if rows == [] then []
    else
      var rest := Covering(rows[1..], wl);
      if Covers(rows[0], wl) then
        assert ([rows[0]] + rest)[1..] == rest;
        [rows[0]] + rest
      else
        assert rest != [] ==> rest[0] in rest;
        rest
  }

  /** The wavelength filter keeps every row whose range contains wl as often
      as the rows hold it, and nothing else. */
  lemma {:induction false} CoveringCounts(rows: seq<Row>, wl: real, x: Row)
    ensures multiset(Covering(rows, wl))[x] == (if Covers(x, wl) then multiset(rows)[x] else 0)
  {
    if rows != [] {
      CoveringCounts(rows[1..], wl, x);
      assert multiset(rows) == multiset{rows[0]} + multiset(rows[1..]) by {
        assert rows == [rows[0]] + rows[1..];
      }
    }
  }

  /** The list filter: narrow the rows once per listed wavelength. */
  function CoveringAll(rows: seq<Row>, wls: seq<real>): (r: seq<Row>)
  {
    if wls == [] then rows
    else Covering(CoveringAll(rows, wls[..|wls| - 1]), wls[|wls| - 1])
  }

  /** A row survives the list filter exactly when its range contains every
      listed wavelength; an empty list keeps everything. */
  lemma {:induction false} CoveringAllKeeps(rows: seq<Row>, wls: seq<real>, x: Row)
    ensures x in CoveringAll(rows, wls) <==> x in rows && forall w :: w in wls ==> Covers(x, w)
    ensures wls == [] ==> CoveringAll(rows, wls) == rows
  {
    if wls != [] {
      var init := wls[..|wls| - 1];
      CoveringAllKeeps(rows, init, x);
      assert forall w :: w in wls <==> w in init || w == wls[|wls| - 1];
    }
  }

  /** The list filter keeps every row whose range contains each listed
      wavelength as often as the rows hold it, and nothing else. */
  lemma {:induction false} CoveringAllCounts(rows: seq<Row>, wls: seq<real>, x: Row)
    ensures multiset(CoveringAll(rows, wls))[x]
         == (if forall w :: w in wls ==> Covers(x, w) then multiset(rows)[x] else 0)
  {
    if wls != [] {
      var init := wls[..|wls| - 1];
      CoveringAllCounts(rows, init, x);
      CoveringCounts(CoveringAll(rows, init), wls[|wls| - 1], x);
      assert forall w :: w in wls <==> w in init || w == wls[|wls| - 1];
    }
  }

  /** The list filter keeps the catalog order. */
  lemma {:induction false} CoveringAllSubsequence(rows: seq<Row>, wls: seq<real>)
    ensures IsSubsequence(CoveringAll(rows, wls), rows)
  {
    if wls == [] {
      SubsequenceReflexive(rows);
    } else {
      var init := CoveringAll(rows, wls[..|wls| - 1]);
      CoveringAllSubsequence(rows, wls[..|wls| - 1]);
      SubsequenceTransitive(Covering(init, wls[|wls| - 1]), init, rows);
    }
  }

  /** A one-element list filters like the number itself. */
  lemma SingleAsList(rows: seq<Row>, wl: real)
    ensures CoveringAll(rows, [wl]) == Covering(rows, wl)
  {
    assert [wl][..0] == [];
  }

  /** Whether a row passes the wavelength filter. */
  predicate Admits(filter: WavelengthFilter, x: Row)
  {
    match filter
    case NoFilter => true
    case Single(wl) => Covers(x, wl)
    case Several(wls) => forall w :: w in wls ==> Covers(x, w)
    case Unsupported => false
  }

  /** What _search returns. A fuzzy search without suggestions returns the
      rows whose field is "" before the filter is looked at. */
  function SearchResult(catalog: seq<Row>, names: seq<string>, f: Field, query: string,
                        filter: WavelengthFilter, fuzzy: bool,
                        suggest: (string, seq<string>) -> seq<string>): Result<seq<Row>, DatabaseError>
  {
    if fuzzy && |suggest(query, names)| == 0 then Ok(WhereEquals(catalog, f, ""))
    else
      var found := if fuzzy then MatchesOfEach(catalog, f, suggest(query, names))
                   else WhereEquals(catalog, f, query);
      Filtered(found, filter)
  }

  /** The wavelength filter applied to the matches. */
  function Filtered(found: seq<Row>, filter: WavelengthFilter): (r: Result<seq<Row>, DatabaseError>)
    ensures r.Err? <==> filter.Unsupported?
    ensures r.Err? ==> r.error == WavelengthFilterNotNumeric
  {
    match filter
    case NoFilter => Ok(found)
    case Single(wl) => Ok(Covering(found, wl))
    case Several(wls) => Ok(CoveringAll(found, wls))
    case Unsupported => Err(WavelengthFilterNotNumeric)
  }

  /** The filter keeps a row as often as the matches hold it when the row
      passes, and drops it otherwise. */
  lemma FilteredCounts(found: seq<Row>, filter: WavelengthFilter, x: Row)
    ensures Filtered(found, filter).Ok? ==>
      multiset(Filtered(found, filter).value)[x] == (if Admits(filter, x) then multiset(found)[x] else 0)
  {
    match filter
    case NoFilter =>
    case Single(wl) => CoveringCounts(found, wl, x);
    case Several(wls) => CoveringAllCounts(found, wls, x);
    case Unsupported =>
  }

  /** The search fails only for an unsupported filter (and not even then when
      a fuzzy search finds no suggestion); otherwise a row is returned exactly
      when it is in the catalog, its field is the query (or, fuzzy, one of the
      suggestions) and its range passes the filter. */
  lemma {:induction false} SearchFinds(catalog: seq<Row>, names: seq<string>, f: Field, query: string,
                                       filter: WavelengthFilter, fuzzy: bool,
                                       suggest: (string, seq<string>) -> seq<string>, x: Row)
    ensures var r := SearchResult(catalog, names, f, query, filter, fuzzy, suggest);
      var suggestions := suggest(query, names);
      && (r.Err? <==> filter.Unsupported? && !(fuzzy && |suggestions| == 0))
      && (r.Err? ==> r.error == WavelengthFilterNotNumeric)
      && (fuzzy && |suggestions| == 0 ==> r == Ok(WhereEquals(catalog, f, "")))
      && (r.Ok? && !(fuzzy && |suggestions| == 0) ==>
            (x in r.value <==>
               x in catalog && Admits(filter, x)
               && (if fuzzy then FieldOf(x, f) in suggestions else FieldOf(x, f) == query)))
  {
    var suggestions := suggest(query, names);
    if !(fuzzy && |suggestions| == 0) {
      var found := if fuzzy then MatchesOfEach(catalog, f, suggestions) else WhereEquals(catalog, f, query);
      if filter.Several? {
        CoveringAllKeeps(found, filter.wls, x);
      }
    }
  }

  /** How often a search returns a row: never unless the row passes the
      filter; otherwise as often as the catalog holds it, times the number of
      suggestions equal to its field (fuzzy) or once if its field is the
      query (exact). (A fuzzy search without suggestions returns
      WhereEquals(catalog, f, ""), whose counts WhereEqualsCounts gives.) */
  lemma SearchCounts(catalog: seq<Row>, names: seq<string>, f: Field, query: string,
                     filter: WavelengthFilter, fuzzy: bool,
                     suggest: (string, seq<string>) -> seq<string>, x: Row)
    ensures var r := SearchResult(catalog, names, f, query, filter, fuzzy, suggest);
      var suggestions := suggest(query, names);
      r.Ok? && !(fuzzy && |suggestions| == 0) ==>
        multiset(r.value)[x]
        == if !Admits(filter, x) then 0
           else if fuzzy then multiset(suggestions)[FieldOf(x, f)] * multiset(catalog)[x]
           else if FieldOf(x, f) == query then multiset(catalog)[x]
           else 0
  {
    var suggestions := suggest(query, names);
    if !(fuzzy && |suggestions| == 0) {
      var found := if fuzzy then MatchesOfEach(catalog, f, suggestions) else WhereEquals(catalog, f, query);
      if fuzzy {
        MatchesOfEachCounts(catalog, f, suggestions, x);
      } else {
        WhereEqualsCounts(catalog, f, query, x);
      }
      FilteredCounts(found, filter, x);
    }
  }

  /** The order of a search result: an exact search (or a fuzzy one without
      suggestions) returns catalog rows in catalog order; a fuzzy one returns
      the concatenated matches with filtered rows left out, so with distinct
      suggestions the rows come grouped by suggestion, most likely first. */
  lemma {:induction false} SearchOrder(catalog: seq<Row>, names: seq<string>, f: Field, query: string,
                                       filter: WavelengthFilter, fuzzy: bool,
                                       suggest: (string, seq<string>) -> seq<string>)
    ensures var r := SearchResult(catalog, names, f, query, filter, fuzzy, suggest);
      var suggestions := suggest(query, names);
      && (r.Ok? && !(fuzzy && |suggestions| > 0) ==> IsSubsequence(r.value, catalog))
      && (r.Ok? && fuzzy && |suggestions| > 0 ==>
            IsSubsequence(r.value, MatchesOfEach(catalog, f, suggestions)))
      && (r.Ok? && fuzzy && |suggestions| > 0
          && (forall i, j :: 0 <= i < j < |suggestions| ==> suggestions[i] != suggestions[j]) ==>
            InSuggestionOrder(r.value, f, suggestions))
  {
    var suggestions := suggest(query, names);
    var r := SearchResult(catalog, names, f, query, filter, fuzzy, suggest);
    if fuzzy && |suggestions| == 0 {
      WhereEqualsSubsequence(catalog, f, "");
    } else if r.Ok? {
      var found := if fuzzy then MatchesOfEach(catalog, f, suggestions) else WhereEquals(catalog, f, query);
      match filter {
        case NoFilter => SubsequenceReflexive(found);
        case Single(wl) =>
        case Several(wls) => CoveringAllSubsequence(found, wls);
      }
      assert IsSubsequence(r.value, found);
      if !fuzzy {
        WhereEqualsSubsequence(catalog, f, query);
        SubsequenceTransitive(r.value, found, catalog);
      } else if forall i, j :: 0 <= i < j < |suggestions| ==> suggestions[i] != suggestions[j] {
        MatchesOfEachOrder(catalog, f, suggestions);
        SubsequenceOrdered(r.value, found, x => SuggestionRank(suggestions, f, x));
      }
    }
  }

  // ---------------------------------------------------------------------------
  // Unique lookup

  predicate IsMatch(rows: seq<Row>, k: int, book: string, page: string)
  {
    0 <= k < |rows| && rows[k].book == book && rows[k].page == page
  }

  /** The positions of the rows matching both book and page, ascending. */
  function MatchIndices(rows: seq<Row>, book: string, page: string): (r: seq<nat>)
    ensures forall k :: k in r <==> IsMatch(rows, k, book, page)
    ensures forall i, j :: 0 <= i < j < |r| ==> r[i] < r[j]
    ensures forall i :: 0 <= i < |r| ==> r[i] < |rows|
  {
    if rows == [] then []
    else
      var n := |rows| - 1;
      var r0 := MatchIndices(rows[..n], book, page);
      assert forall k :: IsMatch(rows[..n], k, book, page) <==> IsMatch(rows, k, book, page) && k < n;
      if rows[n].book == book && rows[n].page == page then r0 + [n] else r0
  }

  /** Exactly one position matches iff the index list has length one. */
  lemma UniqueMatch(rows: seq<Row>, book: string, page: string)
    ensures |MatchIndices(rows, book, page)| == 1 <==>
      exists k :: IsMatch(rows, k, book, page) && forall j :: IsMatch(rows, j, book, page) ==> j == k
  {
    var idx := MatchIndices(rows, book, page);
    if |idx| == 1 {
      var k := idx[0];
      assert k in idx;
      forall j | IsMatch(rows, j, book, page) ensures j == k {
        assert j in idx;
      }
    }
    if exists k :: IsMatch(rows, k, book, page) && forall j :: IsMatch(rows, j, book, page) ==> j == k {
      var k :| IsMatch(rows, k, book, page) && forall j :: IsMatch(rows, j, book, page) ==> j == k;
      assert k in idx;
      assert forall i :: 0 <= i < |idx| ==> idx[i] == k by {
        forall i | 0 <= i < |idx| ensures idx[i] == k {
          assert idx[i] in idx;
        }
      }
      if |idx| > 1 {
        IncreasingDistinct(idx);
        assert false;
      }
    }
  }

  lemma IncreasingDistinct(s: seq<nat>)
    requires |s| > 1 && forall i, j :: 0 <= i < j < |s| ==> s[i] < s[j]
    ensures s[0] != s[1]
  {
  }

  /** The row for (book, page); ValueError("No entry found.") unless exactly
      one row matches both. */
  function FindUnique(rows: seq<Row>, book: string, page: string): (r: Result<Row, DatabaseError>)
    ensures r.Ok? <==>
      exists k :: IsMatch(rows, k, book, page) && forall j :: IsMatch(rows, j, book, page) ==> j == k
    ensures r.Ok? ==> r.value in rows && r.value.book == book && r.value.page == page
    ensures r.Err? ==> r.error == NoEntryFound
  {
    var idx := MatchIndices(rows, book, page);
    UniqueMatch(rows, book, page);
    if |idx| == 1 then
      assert idx[0] in idx;
      Ok(rows[idx[0]])
    else Err(NoEntryFound)
  }

  /** The parsed data file of the unique row for (book, page). */
  function DataFileOf(rows: seq<Row>, book: string, page: string, files: map<string, DataFile>): (r: Result<DataFile, DatabaseError>)
    ensures r.Ok? <==> FindUnique(rows, book, page).Ok? && FindUnique(rows, book, page).value.path in files
    ensures r.Ok? ==> r.value == files[FindUnique(rows, book, page).value.path]
    ensures FindUnique(rows, book, page).Err? ==> r == Err(NoEntryFound)
  {
    match FindUnique(rows, book, page)
    case Err(e) => Err(e)
    case Ok(row) => if row.path in files then Ok(files[row.path]) else Err(FileNotFound(row.path))
  }

  // ---------------------------------------------------------------------------
  // Dispersion relations

  /** The dispersion objects load_dispersion builds; the formula classes keep
      their coefficient lists. */
  datatype Dispersion =
    | Table(lbda: seq<real>, index: seq<(real, real)>)   // n + ik as (n, k), lbda in nm
    | Sellmeier(terms: seq<(real, real)>)
    | EpsilonInf(eps: real)
    | Polynomial(constant: real, terms: seq<(real, real)>)
    | SellmeierCustomExponent(quads: seq<(real, real, real, real)>)
    | CauchyCustomExponent(constant: real, terms: seq<(real, real)>)
    | Added(left: Dispersion, right: Dispersion)           // left + right
    | AsIndex(of: Dispersion)                              // dispersion.as_index()
    | DispersionSum(parts: seq<Dispersion>)
    | IndexDispersionSum(parts: seq<Dispersion>)

  /** isinstance(dispersion, IndexDispersion) for what load_dispersion builds. */
  predicate IsIndexDispersion(d: Dispersion)
  {
    d.Table? || d.CauchyCustomExponent? || d.AsIndex?
  }

  /** The relation types load_dispersion knows, read from the "type" entry. */
  datatype RelationType =
    | TabulatedNK | TabulatedN | TabulatedK
    | Formula1 | Formula2 | Formula3 | Formula4 | Formula5
    | Unknown

  function TypeOf(kind: string): RelationType
  {
    if kind == "tabulated nk" then TabulatedNK
    else if kind == "tabulated n" then TabulatedN
    else if kind == "tabulated k" then TabulatedK
    else if kind == "formula 1" then Formula1
    else if kind == "formula 2" then Formula2
    else if kind == "formula 3" then Formula3
    else if kind == "formula 4" then Formula4
    else if kind == "formula 5" then Formula5
    else Unknown
  }

  predicate IsTabulated(t: RelationType)
  {
    t == TabulatedNK || t == TabulatedN || t == TabulatedK
  }

  /** The relation types that set contains_index_dispersion. */
  predicate IsIndexType(t: RelationType)
  {
    IsTabulated(t) || t == Formula5
  }

  /** The numbers of a "coefficients" entry, split on single spaces; a
      token float() rejects raises. */
  function Coefficients(text: string, number: string -> Option<real>): (r: Result<seq<real>, DatabaseError>)
    ensures r.Ok? ==> |r.value| == |Split(text, ' ')| >= 1
    ensures r.Ok? ==> forall k :: 0 <= k < |r.value| ==> number(Split(text, ' ')[k]) == Some(r.value[k])
    ensures r.Err? ==> exists k :: 0 <= k < |Split(text, ' ')| && r.error == NotAFloat(Split(text, ' ')[k])
                                    && number(Split(text, ' ')[k]).None?
  {
    match ParseNumbers(Split(text, ' '), number)
    case Err(token) => Err(NotAFloat(token))
    case Ok(c) => Ok(c)
  }

  /** zip(c[from::2], c[from+1::2]). */
  function Pairs(c: seq<real>, from: nat): seq<(real, real)>
  {
    Zip(Stride(c, from, |c|, 2), Stride(c, from + 1, |c|, 2))
  }

  /** zip(c[1:6:4], c[2:7:4], c[3:8:4], c[4:9:4]). */
  function Quads(c: seq<real>): seq<(real, real, real, real)>
  {
    Zip4(Stride(c, 1, 6, 4), Stride(c, 2, 7, 4), Stride(c, 3, 8, 4), Stride(c, 4, 9, 4))
  }

  /** The pairs start at index `from` and are truncated to whole pairs. */
  lemma PairsLayout(c: seq<real>, from: nat)
    ensures |Pairs(c, from)| == if |c| <= from then 0 else (|c| - from) / 2
    ensures forall k :: 0 <= k < |Pairs(c, from)| ==>
      from + 2 * k + 1 < |c| && Pairs(c, from)[k] == (c[from + 2 * k], c[from + 2 * k + 1])
  {
    var n := |c|;
    var ps := Pairs(c, from);
    if from + 1 < n {
      var a, b := StrideFrom(c, from, n, 2), StrideFrom(c, from + 1, n, 2);
      EveryOther(c, from);
      EveryOther(c, from + 1);
      assert ps == Zip(a, b);
      forall k | 0 <= k < |ps| ensures from + 2 * k + 1 < n && ps[k] == (c[from + 2 * k], c[from + 2 * k + 1]) {
        assert ps[k] == (a[k], b[k]);
      }
    } else {
      assert StrideFrom(c, SliceBound(from + 1, n), n, 2) == [];
    }
  }

  /** The 4-tuples are taken at indices 1-4 and 5-8, as far as the list reaches. */
  lemma QuadsLayout(c: seq<real>)
    ensures |Quads(c)| == if |c| >= 9 then 2 else if |c| >= 5 then 1 else 0
    ensures forall k :: 0 <= k < |Quads(c)| ==>
      4 * k + 4 < |c| && Quads(c)[k] == (c[4 * k + 1], c[4 * k + 2], c[4 * k + 3], c[4 * k + 4])
  {
  }

  function Square(x: real): real
  {
    x * x
  }

  /** Formula 1 squares the second member of every pair. */
  function SquaredSecond(ps: seq<(real, real)>): (r: seq<(real, real)>)
    ensures |r| == |ps| && forall k :: 0 <= k < |ps| ==> r[k] == (ps[k].0, Square(ps[k].1))
  {
    seq(|ps|, k requires 0 <= k < |ps| => (ps[k].0, Square(ps[k].1)))
  }

  /** The dispersion of a formula relation with coefficients c. */
  function FormulaDispersion(t: RelationType, c: seq<real>): (d: Dispersion)
    requires !IsTabulated(t) && t != Unknown && |c| >= 1
  {
    match t
    case Formula1 => Added(Sellmeier(SquaredSecond(Pairs(c, 1))), EpsilonInf(c[0]))
    case Formula2 => Added(Sellmeier(Pairs(c, 1)), EpsilonInf(c[0]))
    case Formula3 => Polynomial(c[0], Pairs(c, 1))
    case Formula4 => Added(Polynomial(c[0], Pairs(c, 9)), SellmeierCustomExponent(Quads(c)))
    case Formula5 => CauchyCustomExponent(c[0], Pairs(c, 1))
  }

  /** Formulas 1 and 2: the epsilon-infinity term is c[0] and the Sellmeier
      terms are (c[1], c[2]), (c[3], c[4]), ..., with the second member squared
      by formula 1. */
  lemma SellmeierLayout(c: seq<real>, t: RelationType)
    requires |c| >= 1 && (t == Formula1 || t == Formula2)
    ensures FormulaDispersion(t, c).Added?
    ensures FormulaDispersion(t, c).right == EpsilonInf(c[0])
    ensures FormulaDispersion(t, c).left.Sellmeier?
    ensures |FormulaDispersion(t, c).left.terms| == (|c| - 1) / 2
    ensures forall k :: 0 <= k < |FormulaDispersion(t, c).left.terms| ==>
      2 * k + 2 < |c| &&
      FormulaDispersion(t, c).left.terms[k] == (c[2 * k + 1], if t == Formula1 then Square(c[2 * k + 2]) else c[2 * k + 2])
  {
    PairsLayout(c, 1);
    var ps := Pairs(c, 1);
    var terms := if t == Formula1 then SquaredSecond(ps) else ps;
    assert FormulaDispersion(t, c) == Added(Sellmeier(terms), EpsilonInf(c[0]));
  }

  /** Formula 4: the polynomial constant is c[0], the custom-exponent
      Sellmeier terms are c[1..4] and c[5..8], and the polynomial pairs start
      at c[9]. */
  lemma Formula4Layout(c: seq<real>)
    requires |c| >= 1
    ensures FormulaDispersion(Formula4, c) == Added(Polynomial(c[0], Pairs(c, 9)), SellmeierCustomExponent(Quads(c)))
    ensures |Quads(c)| == (if |c| >= 9 then 2 else if |c| >= 5 then 1 else 0)
    ensures forall k :: 0 <= k < |Quads(c)| ==>
      4 * k + 4 < |c| && Quads(c)[k] == (c[4 * k + 1], c[4 * k + 2], c[4 * k + 3], c[4 * k + 4])
    ensures |Pairs(c, 9)| == (if |c| <= 9 then 0 else (|c| - 9) / 2)
    ensures forall k :: 0 <= k < |Pairs(c, 9)| ==>
      10 + 2 * k < |c| && Pairs(c, 9)[k] == (c[9 + 2 * k], c[10 + 2 * k])
  {
    QuadsLayout(c);
    PairsLayout(c, 9);
  }

  /** A tabulated relation: wavelengths from µm to nm, and n + ik. */
  function TabulatedDispersion(t: RelationType, text: string, parsers: Parsers): (d: Dispersion)
    requires IsTabulated(t)
    ensures d.Table? && |d.lbda| == |d.index|
    ensures t == TabulatedNK ==>
      var rows := parsers.table3(text);
      |d.lbda| == |rows| && forall i :: 0 <= i < |rows| ==>
        d.lbda[i] == 1000.0 * rows[i].0 && d.index[i] == (rows[i].1, rows[i].2)
    ensures t != TabulatedNK ==>
      var rows := parsers.table2(text);
      |d.lbda| == |rows| && forall i :: 0 <= i < |rows| ==>
        d.lbda[i] == 1000.0 * rows[i].0
        && d.index[i] == (if t == TabulatedN then (rows[i].1, 0.0) else (0.0, rows[i].1))
  {
    if t == TabulatedNK then
      var rows := parsers.table3(text);
      Table(seq(|rows|, i requires 0 <= i < |rows| => 1000.0 * rows[i].0),
            seq(|rows|, i requires 0 <= i < |rows| => (rows[i].1, rows[i].2)))
    else
      var rows := parsers.table2(text);
      Table(seq(|rows|, i requires 0 <= i < |rows| => 1000.0 * rows[i].0),
            seq(|rows|, i requires 0 <= i < |rows| =>
              if t == TabulatedN then (rows[i].1, 0.0) else (0.0, rows[i].1)))
  }

  /** One pass of the dispatch in load_dispersion's loop. */
  function RelationDispersion(rel: Relation, parsers: Parsers): (r: Result<Dispersion, DatabaseError>)
    ensures r == Err(UnimplementedFormat) <==> TypeOf(rel.kind) == Unknown
    ensures r.Ok? ==> (IsIndexType(TypeOf(rel.kind)) <==> IsIndexDispersion(r.value))
  {
    var t := TypeOf(rel.kind);
    if t == Unknown then Err(UnimplementedFormat)
    else if IsTabulated(t) then
      match rel.data
      case None => Err(MissingKey("data"))
      case Some(text) => Ok(TabulatedDispersion(t, text, parsers))
    else
      match rel.coefficients
      case None => Err(MissingKey("coefficients"))
      case Some(text) =>
        match Coefficients(text, parsers.number)
        case Err(e) => Err(e)
        case Ok(c) => Ok(FormulaDispersion(t, c))
  }

  /** The conversion applied to each relation of a data file. */
  function Converter(parsers: Parsers): Relation -> Result<Dispersion, DatabaseError>
  {
    rel => RelationDispersion(rel, parsers)
  }

  /** The list built by converting each record in order: the first record
      that fails raises its error. */
  function ConvertAll<R, D, E>(records: seq<R>, convert: R -> Result<D, E>): (r: Result<seq<D>, E>)
  {
    if records == [] then Ok([])
    else
      var n := |records| - 1;
      match ConvertAll(records[..n], convert)
      case Err(e) => Err(e)
      case Ok(list) =>
        match convert(records[n])
        case Err(e) => Err(e)
        case Ok(d) => Ok(list + [d])
  }

  /** The list is built exactly when every record converts, one result per
      record, in order. */
  lemma {:induction false} ConvertAllOk<R, D, E>(records: seq<R>, convert: R -> Result<D, E>)
    ensures ConvertAll(records, convert).Ok? <==> forall k :: 0 <= k < |records| ==> convert(records[k]).Ok?
    ensures ConvertAll(records, convert).Ok? ==>
      |ConvertAll(records, convert).value| == |records| &&
      forall k :: 0 <= k < |records| ==> convert(records[k]) == Ok(ConvertAll(records, convert).value[k])
  {
    if records != [] {
      var n := |records| - 1;
      var init := records[..n];
      ConvertAllOk(init, convert);
      assert forall k :: 0 <= k < n ==> init[k] == records[k];
    }
  }

  /** One more converted record extends the list by its result. */
  lemma ConvertAllStep<R, D, E>(records: seq<R>, convert: R -> Result<D, E>, i: nat, list: seq<D>)
    requires i < |records| && ConvertAll(records[..i], convert) == Ok(list)
    requires convert(records[i]).Ok?
    ensures ConvertAll(records[..i + 1], convert) == Ok(list + [convert(records[i]).value])
  {
    assert records[..i + 1][..i] == records[..i];
    assert records[..i + 1][i] == records[i];
  }

  /** A record that fails after a run of successful ones is the error of the
      whole list: the first failure is the one raised. */
  lemma {:induction false} FirstFailure<R, D, E>(records: seq<R>, convert: R -> Result<D, E>, i: nat, list: seq<D>)
    requires i < |records| && ConvertAll(records[..i], convert) == Ok(list)
    requires convert(records[i]).Err?
    ensures ConvertAll(records, convert) == Err(convert(records[i]).error)
    decreases |records|
  {
    var n := |records| - 1;
    if i == n {
      assert records[..n] == records[..i];
    } else {
      assert records[..n][..i] == records[..i];
      FirstFailure(records[..n], convert, i, list);
    }
  }

  /** The index form of a relation: unchanged when already an index dispersion. */
  function ToIndex(d: Dispersion): (r: Dispersion)
    ensures IsIndexDispersion(r)
    ensures IsIndexDispersion(d) ==> r == d
    ensures !IsIndexDispersion(d) ==> r == AsIndex(d)
  {
    if IsIndexDispersion(d) then d else AsIndex(d)
  }

  /** The combination rule after the loop: one relation is returned as it
      is; with an index relation among them, all are converted to index form
      and summed as an IndexDispersionSum; otherwise a DispersionSum. */
  function Combine(list: seq<Dispersion>, containsIndex: bool): (r: Dispersion)
    ensures |list| == 1 ==> r == list[0]
    ensures |list| != 1 && containsIndex ==>
      r.IndexDispersionSum? && |r.parts| == |list|
      && forall k :: 0 <= k < |list| ==>
           IsIndexDispersion(r.parts[k]) && r.parts[k] == ToIndex(list[k])
    ensures |list| != 1 && !containsIndex ==> r == DispersionSum(list)
  {
    if |list| == 1 then list[0]
    else if containsIndex then IndexDispersionSum(seq(|list|, k requires 0 <= k < |list| => ToIndex(list[k])))
    else DispersionSum(list)
  }

  predicate ContainsIndexType(records: seq<Relation>)
  {
    exists k :: 0 <= k < |records| && IsIndexType(TypeOf(records[k].kind))
  }

  /** Seeing one more relation adds its own type to the index check. */
  lemma ContainsIndexTypeStep(records: seq<Relation>, i: nat)
    requires i < |records|
    ensures ContainsIndexType(records[..i + 1]) ==
      (ContainsIndexType(records[..i]) || IsIndexType(TypeOf(records[i].kind)))
  {
    assert forall k :: 0 <= k < i ==> records[..i + 1][k] == records[..i][k];
    assert records[..i + 1][i] == records[i];
  }

  /** What load_dispersion returns. */
  function LoadDispersionResult(catalog: seq<Row>, book: string, page: string,
                                files: map<string, DataFile>, parsers: Parsers): Result<Dispersion, DatabaseError>
  {
    match DataFileOf(catalog, book, page, files)
    case Err(e) => Err(e)
    case Ok(file) =>
      match file.data
      case None => Err(MissingKey("DATA"))
      case Some(records) =>
        match ConvertAll(records, Converter(parsers))
        case Err(e) => Err(e)
        case Ok(list) => Ok(Combine(list, ContainsIndexType(records)))
  }

  /** A load needs a unique catalog row and only relations of known type;
      with several relations (or none) the result is an IndexDispersionSum of
      index dispersions exactly when one of them is tabulated or formula 5. */
  lemma {:induction false} LoadDispersionShape(catalog: seq<Row>, book: string, page: string,
                                               files: map<string, DataFile>, parsers: Parsers)
    ensures var r := LoadDispersionResult(catalog, book, page, files, parsers);
      var file := DataFileOf(catalog, book, page, files);
      && (FindUnique(catalog, book, page).Err? ==> r == Err(NoEntryFound))
      && (r.Ok? ==> file.Ok? && file.value.data.Some?)
      && (r.Ok? ==> forall k :: 0 <= k < |file.value.data.value| ==> TypeOf(file.value.data.value[k].kind) != Unknown)
      && (r.Ok? && |file.value.data.value| == 1 ==> Ok(r.value) == RelationDispersion(file.value.data.value[0], parsers))
      && (r.Ok? && |file.value.data.value| != 1 ==>
            (r.value.IndexDispersionSum? <==> ContainsIndexType(file.value.data.value)))
      && (r.Ok? && |file.value.data.value| != 1 && ContainsIndexType(file.value.data.value) ==>
            forall k :: 0 <= k < |r.value.parts| ==> IsIndexDispersion(r.value.parts[k]))
  {
    var r := LoadDispersionResult(catalog, book, page, files, parsers);
    var file := DataFileOf(catalog, book, page, files);
    if r.Ok? {
      var records := file.value.data.value;
      ConvertAllOk(records, Converter(parsers));
      forall k | 0 <= k < |records| ensures TypeOf(records[k].kind) != Unknown {
        assert RelationDispersion(records[k], parsers).Ok?;
      }
    }
  }

  /** Combining the converted relations of a file with several relations (or
      none) sums each relation's dispersion in file order, in index form when
      one of them is of index type. */
  lemma CombineRelations(records: seq<Relation>, parsers: Parsers)
    requires ConvertAll(records, Converter(parsers)).Ok? && |records| != 1
    ensures var d := Combine(ConvertAll(records, Converter(parsers)).value, ContainsIndexType(records));
      && (d.DispersionSum? || d.IndexDispersionSum?)
      && (d.IndexDispersionSum? <==> ContainsIndexType(records))
      && |d.parts| == |records|
      && forall k :: 0 <= k < |records| ==>
           RelationDispersion(records[k], parsers).Ok? &&
           d.parts[k] == (if ContainsIndexType(records)
                          then ToIndex(RelationDispersion(records[k], parsers).value)
                          else RelationDispersion(records[k], parsers).value)
  {
    var convert := Converter(parsers);
    ConvertAllOk(records, convert);
    assert forall k :: 0 <= k < |records| ==> convert(records[k]) == RelationDispersion(records[k], parsers);
  }

  /** When a load succeeds and what it returns. A missing row or file, or a
      file without DATA, is reported as such; otherwise the load succeeds
      exactly when every relation converts, and with several relations (or
      none) the result sums each relation's dispersion in file order, turned
      into index form when one of them is of index type. */
  lemma LoadDispersionOutcome(catalog: seq<Row>, book: string, page: string,
                              files: map<string, DataFile>, parsers: Parsers)
    ensures var r := LoadDispersionResult(catalog, book, page, files, parsers);
      var file := DataFileOf(catalog, book, page, files);
      && (file.Err? ==> r == Err(file.error))
      && (file.Ok? && file.value.data.None? ==> r == Err(MissingKey("DATA")))
      && (file.Ok? && file.value.data.Some? ==>
            var records := file.value.data.value;
            && (r.Ok? <==> forall k :: 0 <= k < |records| ==> RelationDispersion(records[k], parsers).Ok?)
            && (r.Ok? && |records| != 1 ==>
                  && (r.value.DispersionSum? || r.value.IndexDispersionSum?)
                  && (r.value.IndexDispersionSum? <==> ContainsIndexType(records))
                  && |r.value.parts| == |records|
                  && forall k :: 0 <= k < |records| ==>
                       RelationDispersion(records[k], parsers).Ok? &&
                       r.value.parts[k] == (if ContainsIndexType(records)
                                            then ToIndex(RelationDispersion(records[k], parsers).value)
                                            else RelationDispersion(records[k], parsers).value)))
  {
    var file := DataFileOf(catalog, book, page, files);
    if file.Ok? && file.value.data.Some? {
      var records := file.value.data.value;
      var convert := Converter(parsers);
      ConvertAllOk(records, convert);
      assert forall k :: 0 <= k < |records| ==> convert(records[k]) == RelationDispersion(records[k], parsers);
      if ConvertAll(records, convert).Ok? && |records| != 1 {
        CombineRelations(records, parsers);
      }
    }
  }

  /** Loading a page whose DATA holds one tabulated relation: without a data
      key the load reports that key missing; with it the load returns a Table
      of the data rows, each wavelength in nm (1000 times the µm value) and
      n + ik from the "n k" columns, or from the "n" or the "k" column with
      the other part zero. */
  lemma LoadTabulated(catalog: seq<Row>, book: string, page: string,
                      files: map<string, DataFile>, parsers: Parsers)
    ensures var file := DataFileOf(catalog, book, page, files);
      var r := LoadDispersionResult(catalog, book, page, files, parsers);
      file.Ok? && file.value.data.Some? && |file.value.data.value| == 1
      && IsTabulated(TypeOf(file.value.data.value[0].kind)) ==>
        var rel := file.value.data.value[0];
        var t := TypeOf(rel.kind);
        && (rel.data.None? ==> r == Err(MissingKey("data")))
        && (rel.data.Some? ==>
              && r.Ok? && r.value.Table? && |r.value.lbda| == |r.value.index|
              && (t == TabulatedNK ==>
                    var rows := parsers.table3(rel.data.value);
                    && |r.value.lbda| == |rows|
                    && forall i :: 0 <= i < |rows| ==>
                         r.value.lbda[i] == 1000.0 * rows[i].0 && r.value.index[i] == (rows[i].1, rows[i].2))
              && (t != TabulatedNK ==>
                    var rows := parsers.table2(rel.data.value);
                    && |r.value.lbda| == |rows|
                    && forall i :: 0 <= i < |rows| ==>
                         r.value.lbda[i] == 1000.0 * rows[i].0
                         && r.value.index[i] == (if t == TabulatedN then (rows[i].1, 0.0) else (0.0, rows[i].1))))
  {
    var file := DataFileOf(catalog, book, page, files);
    if file.Ok? && file.value.data.Some? && |file.value.data.value| == 1 {
      var records := file.value.data.value;
      assert records[..0] == [];
      var convert := Converter(parsers);
      assert ConvertAll(records[..0], convert) == Ok([]);
      assert convert(records[0]) == RelationDispersion(records[0], parsers);
    }
  }

  /** The relation a load fails on is the first one that does not convert. */
  lemma LoadDispersionFailure(catalog: seq<Row>, book: string, page: string,
                              files: map<string, DataFile>, parsers: Parsers, i: nat)
    requires DataFileOf(catalog, book, page, files).Ok?
    requires DataFileOf(catalog, book, page, files).value.data.Some?
    requires var records := DataFileOf(catalog, book, page, files).value.data.value;
      && i < |records| && RelationDispersion(records[i], parsers).Err?
      && forall k :: 0 <= k < i ==> RelationDispersion(records[k], parsers).Ok?
    ensures LoadDispersionResult(catalog, book, page, files, parsers) ==
      Err(RelationDispersion(DataFileOf(catalog, book, page, files).value.data.value[i], parsers).error)
  {
    var records := DataFileOf(catalog, book, page, files).value.data.value;
    var convert := Converter(parsers);
    var init := records[..i];
    ConvertAllOk(init, convert);
    assert forall k :: 0 <= k < i ==> init[k] == records[k] && convert(init[k]) == RelationDispersion(records[k], parsers);
    FirstFailure(records, convert, i, ConvertAll(init, convert).value);
  }

  /** The loop over a file's relations: append each dispersion, remember
      whether an index-type relation was seen, stop at the first failure. */
  method CollectRelations(records: seq<Relation>, parsers: Parsers)
    returns (r: Result<seq<Dispersion>, DatabaseError>, containsIndex: bool)
    ensures r == ConvertAll(records, Converter(parsers))
    ensures r.Ok? ==> containsIndex == ContainsIndexType(records)
  {
    var convert := Converter(parsers);
    var list: seq<Dispersion> := [];
    containsIndex := false;
    var i := 0;
    while i < |records|
      invariant 0 <= i <= |records|
      invariant ConvertAll(records[..i], convert) == Ok(list)
      invariant containsIndex == ContainsIndexType(records[..i])
    {
      var d := convert(records[i]);
      if d.Err? {
        FirstFailure(records, convert, i, list);
        return Err(d.error), containsIndex;
      }
      ConvertAllStep(records, convert, i, list);
      ContainsIndexTypeStep(records, i);
      list := list + [d.value];
      containsIndex := containsIndex || IsIndexType(TypeOf(records[i].kind));
      i := i + 1;
    }
    assert records[..i] == records;
    r := Ok(list);
  }

  /** The in-place conversion of every relation that is not yet an index
      dispersion. */
  method ConvertToIndex(list: seq<Dispersion>) returns (converted: seq<Dispersion>)
    ensures |converted| == |list|
    ensures forall k :: 0 <= k < |list| ==> converted[k] == ToIndex(list[k])
  {
    converted := list;
    var j := 0;
    while j < |converted|
      invariant 0 <= j <= |converted| && |converted| == |list|
      invariant forall k :: 0 <= k < j ==> converted[k] == ToIndex(list[k])
      invariant forall k :: j <= k < |converted| ==> converted[k] == list[k]
    {
      if !IsIndexDispersion(converted[j]) {
        converted := converted[j := AsIndex(converted[j])];
      }
      j := j + 1;
    }
  }

  // ---------------------------------------------------------------------------
  // The helper object

  /** The database helper. Its catalog and name lists are set once, when it
      is created, from the library tree. */
  class RII {
    const catalog: seq<Row>
    const books: seq<string>
    const bookLongnames: seq<string>
    const pages: seq<string>

    /** The name lists are the distinct values of their catalog columns. */
    predicate Valid()
    {
      && books == Unique(Column(catalog, BookField))
      && bookLongnames == Unique(Column(catalog, BookLongnameField))
      && pages == Unique(Column(catalog, PageField))
    }

    /** Builds the catalog. A library without a single data page gives pandas
        a frame without columns, whose "year" column is missing. */
    constructor (library: seq<Shelf>, parsers: Parsers)
      requires |LibraryEntries(library, parsers)| > 0
      ensures catalog == Catalog(LibraryEntries(library, parsers), parsers.number)
      ensures Valid()
    {
      var entries := CollectEntries(library, parsers);
      var rows := Catalog(entries, parsers.number);
      catalog := rows;
      books := Unique(Column(rows, BookField));
      bookLongnames := Unique(Column(rows, BookLongnameField));
      pages := Unique(Column(rows, PageField));
    }

    /** The name list the fuzzy matcher draws suggestions from for a field:
        every value of that column, each once. */
    function Names(f: Field): (names: seq<string>)
      requires Valid()
      ensures forall x :: x in names <==> x in Column(catalog, f)
      ensures forall i, j :: 0 <= i < j < |names| ==> names[i] != names[j]
    {
      match f
      case BookField => books
      case BookLongnameField => bookLongnames
      case PageField => pages
    }

    /** _search: exact or fuzzy matches on a field, then the wavelength filter. */
    method Search(query: string, f: Field, filter: WavelengthFilter, fuzzy: bool,
                  suggest: (string, seq<string>) -> seq<string>) returns (r: Result<seq<Row>, DatabaseError>)
      requires Valid()
      ensures r == SearchResult(catalog, Names(f), f, query, filter, fuzzy, suggest)
    {
      var result: seq<Row>;
      if fuzzy {
        var suggestions := suggest(query, Names(f));
        if |suggestions| == 0 {
          return Ok(WhereEquals(catalog, f, ""));
        }
        result := MatchesOfEach(catalog, f, suggestions);
      } else {
        result := WhereEquals(catalog, f, query);
      }
      match filter {
        case NoFilter =>
          r := Ok(result);
        case Single(wl) =>
          r := Ok(Covering(result, wl));
        case Several(wls) =>
          ghost var found := result;
          var i := 0;
          while i < |wls|
            invariant 0 <= i <= |wls|
            invariant result == CoveringAll(found, wls[..i])
          {
            assert wls[..i + 1][..i] == wls[..i];
            result := Covering(result, wls[i]);
            i := i + 1;
          }
          assert wls[..i] == wls;
          r := Ok(result);
        case Unsupported =>
          r := Err(WavelengthFilterNotNumeric);
      }
    }

    /** search_book: the book field, or the long book name with `longname`. */
    method SearchBook(query: string, filter: WavelengthFilter, longname: bool, fuzzy: bool,
                      suggest: (string, seq<string>) -> seq<string>) returns (r: Result<seq<Row>, DatabaseError>)
      requires Valid()
      ensures longname ==> r == SearchResult(catalog, bookLongnames, BookLongnameField, query, filter, fuzzy, suggest)
      ensures !longname ==> r == SearchResult(catalog, books, BookField, query, filter, fuzzy, suggest)
    {
      var f := if longname then BookLongnameField else BookField;
      r := Search(query, f, filter, fuzzy, suggest);
    }

    /** search_page: the page field. */
    method SearchPage(query: string, filter: WavelengthFilter, fuzzy: bool,
                      suggest: (string, seq<string>) -> seq<string>) returns (r: Result<seq<Row>, DatabaseError>)
      requires Valid()
      ensures r == SearchResult(catalog, pages, PageField, query, filter, fuzzy, suggest)
    {
      r := Search(query, PageField, filter, fuzzy, suggest);
    }

    /** load_dispersion: every relation of the unique page's file, combined. */
    method LoadDispersion(book: string, page: string, files: map<string, DataFile>, parsers: Parsers)
      returns (r: Result<Dispersion, DatabaseError>)
      ensures r == LoadDispersionResult(catalog, book, page, files, parsers)
    {
      var file := DataFileOf(catalog, book, page, files);
      if file.Err? {
        return Err(file.error);
      }
      if file.value.data.None? {
        return Err(MissingKey("DATA"));
      }
      var records := file.value.data.value;
      var list, containsIndex := CollectRelations(records, parsers);
      if list.Err? {
        return Err(list.error);
      }
      if |list.value| == 1 {
        return Ok(list.value[0]);
      }
      if containsIndex {
        var converted := ConvertToIndex(list.value);
        assert converted == seq(|list.value|, k requires 0 <= k < |list.value| => ToIndex(list.value[k]));
        return Ok(IndexDispersionSum(converted));
      }
      return Ok(DispersionSum(list.value));
    }

    /** get_reference: the REFERENCES entry of the unique page's file. */
    function GetReference(book: string, page: string, files: map<string, DataFile>): (r: Result<string, DatabaseError>)
      ensures r.Ok? <==> (DataFileOf(catalog, book, page, files).Ok? &&
                          DataFileOf(catalog, book, page, files).value.references.Some?)
      ensures r.Ok? ==> Some(r.value) == DataFileOf(catalog, book, page, files).value.references
      ensures FindUnique(catalog, book, page).Err? ==> r == Err(NoEntryFound)
    {
      match DataFileOf(catalog, book, page, files)
      case Err(e) => Err(e)
      case Ok(file) => if file.references.Some? then Ok(file.references.value) else Err(MissingKey("REFERENCES"))
    }

    /** get_comment: the COMMENTS entry of the unique page's file. */
    function GetComment(book: string, page: string, files: map<string, DataFile>): (r: Result<string, DatabaseError>)
      ensures r.Ok? <==> (DataFileOf(catalog, book, page, files).Ok? &&
                          DataFileOf(catalog, book, page, files).value.comments.Some?)
      ensures r.Ok? ==> Some(r.value) == DataFileOf(catalog, book, page, files).value.comments
      ensures FindUnique(catalog, book, page).Err? ==> r == Err(NoEntryFound)
    {
      match DataFileOf(catalog, book, page, files)
      case Err(e) => Err(e)
      case Ok(file) => if file.comments.Some? then Ok(file.comments.value) else Err(MissingKey("COMMENTS"))
    }
  }
}
