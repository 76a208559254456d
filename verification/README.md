# pyElli / berreman4x4 core, modelled in Dafny

This project models three parts of the pyElli ellipsometry package and its
predecessor berreman4x4.

- **The berreman4x4 `Experiment` object** (module `Berreman`,
  `experiment.dfy`). It stores the incident light as a Jones vector
  `[a, b]` or a Stokes vector `[S0, S1, S2, S3]` and derives each from the
  other. `evaluate` picks the 4×4 or the 2×2 solver by name, falling back
  to the process-wide settings for `"default"`. Complex numbers are pairs
  of exact reals. numpy's square root is a parameter, and only the lemmas
  that need the true root require it to be one.
- **The refractiveindex.info helper `RII`** (module `RefractiveIndexInfo`,
  `refractive_index_info.dfy`).
  - The constructor walks the shelf / book / page tree of `library.yml`.
    DIVIDER headings are tracked with a reset per shelf and per book.
  - It builds one catalog row per data page, converts year and wavelength
    ranges to numbers (ranges from µm to nm), and keeps the distinct book,
    long-name and page lists.
  - `search_book` and `search_page` do exact or fuzzy matching followed by
    an optional wavelength filter.
  - `load_dispersion`, `get_reference` and `get_comment` need exactly one
    catalog row for the (book, page) pair.
  - `load_dispersion` turns each relation of the page's data file into a
    dispersion (tabulated n/k, formulas 1 to 5). It returns a single
    relation as it is, and otherwise a `DispersionSum`, or an
    `IndexDispersionSum` of index-form dispersions when an index-type
    relation is among them.
- **The SpectraRay ASCII importer** (module `SpectraRay`, `spectraray.dfy`).
  - The Ψ/Δ reader takes the angles of incidence from every other header
    token from the third on, and labels the non-empty columns angle × (Ψ, Δ).
  - It stacks the rows by angle, sorts them by (angle, wavelength), puts Ψ
    before Δ, and moves Δ above 180° down by 360°.
  - The Mueller-matrix reader keeps the 16 columns before the last one and
    labels them M11 … M44.

`common.dfy` (module `Common`) holds the Python list operations the three
modules share:
- negative-index and strided slicing;
- `zip`;
- `str.split` and `str.join` with one separator;
- `list(map(float, …))`.

The file system, YAML, regular expressions, float parsing, pandas' table
reader and rapidfuzz are parameters of the model (oracles). Their results
are given, not computed.

Three details of the code that the model keeps:
- `evaluate` takes only the solver name (src/berreman4x4/experiment.py:81).
  The wavelengths and angle come from the object.
- A fuzzy search with no suggestion returns the catalog rows whose field is
  the empty string (src/elli/database/refractive_index_info.py:244-245),
  and the wavelength filter is not applied to them.
- The settings' `ExpmBackend` is `"pytorch"`
  (src/berreman4x4/settings.py:26), although that module's docstring names
  scipy.

rapidfuzz's `process.extract` scores each entry of the name list once, and
the name lists are the distinct values of their columns, so its
suggestions are distinct. The ordering lemmas of the search take that as a
hypothesis on the suggestion oracle.

## Model

| member | source | states |
|---|---|---|
| Common.SplitJoin | src/elli/importer/spectraray.py:44 | joining the pieces of `split(sep)` with `sep` gives back the text, so no character of the header is lost or invented by the split |
| Common.ParseNumbers | src/elli/importer/spectraray.py:44 | `list(map(float, tokens))` succeeds iff every token parses; the numbers are the tokens' values in order; on failure the reported token is one that does not parse |
| Common.ParseNumbersFirstFailure | src/elli/database/refractive_index_info.py:357-359 | the token that raises is the first one that does not parse |
| Berreman.StokesOfJonesFullyPolarized | src/berreman4x4/experiment.py:56-60 | the Stokes vector derived from any Jones vector has S0 ≥ 0 and S1² + S2² + S3² = S0² (fully polarized light) |
| Berreman.StokesOfJonesExamples | src/berreman4x4/experiment.py:38-40 | the docstring's horizontal [p, 0] and vertical [0, p] Jones vectors give p²·[1, 1, 0, 0] and p²·[1, −1, 0, 0] |
| Berreman.StokesOfRealJones | src/berreman4x4/experiment.py:56-60 | a real Jones vector [p, q] gives [p²+q², p²−q², 2pq, 0]: linear light has no circular part |
| Berreman.StokesOfQuarterWave | src/berreman4x4/experiment.py:56-60 | a Jones vector [p, ir] gives [p²+r², p²−r², 0, 2pr] |
| Berreman.VerticalStokes | src/berreman4x4/experiment.py:65-74 | for S0 ≠ 0 the "Q == −1" branch, which yields exactly [0, 1], is taken iff S1 < 0 and S2 = S3 = 0 |
| Berreman.VerticalStokesExample | src/berreman4x4/experiment.py:47 | the docstring's vertical Stokes vector [1, −1, 0, 0] gives the Jones vector [0, 1] |
| Berreman.JonesStokesRoundTrip | src/berreman4x4/experiment.py:56-79 | Jones → Stokes → Jones (with the corrected sign of V) returns a unit-intensity vector equal to the original up to a complex factor, for every non-zero Jones vector |
| Berreman.AsWrittenRoundTripFlipsHandedness | src/berreman4x4/experiment.py:77 | with the source's b = U/(2a) − iV/(2a), Jones [3, 4i] → Stokes [25, −7, 0, 24] → Jones [0.6, −0.8i], which is not the original state; the corrected derivation gives [0.6, 0.8i], which is |
| Berreman.AsWrittenNegatesV | src/berreman4x4/experiment.py:72-79 | the source's derivation equals the corrected one applied to the Stokes vector with V negated |
| Berreman.Experiment.constructor | src/berreman4x4/experiment.py:22-33 | stores structure, angle and (wavelengths, "m"), then sets the light from `vector`: a Jones vector [a, b] is stored with the Stokes vector derived from it, which is fully polarized; a Stokes vector is stored with its derived Jones vector; with no vector (or another shape) both light attributes stay unset |
| Berreman.Experiment.SetVector | src/berreman4x4/experiment.py:51-79 | shape (2,) stores the Jones vector and its derived, fully polarized Stokes vector; shape (4,) stores the Stokes vector and its derived Jones vector; any other shape changes neither |
| Berreman.Evaluate | src/berreman4x4/experiment.py:81-94 | "default" is replaced by the settings' solver when one is set; the call succeeds iff the resolved name is "berreman4x4" or "simple2x2" and selects the solver of that name, and otherwise raises the invalid-solver error naming both valid names |
| Berreman.EvaluateDefault | src/berreman4x4/settings.py:24-28 | with the shipped settings "default" selects the 4×4 solver; with no 'solver' key "default" is rejected |
| Berreman.EvaluateByName | src/berreman4x4/experiment.py:91-94 | each valid name selects its own solver whatever the settings |
| RefractiveIndexInfo.JoinComments | src/elli/database/refractive_index_info.py:146-154 | the comment is both comment groups with the missing and empty ones dropped, joined by one space (all four cases) |
| RefractiveIndexInfo.CollectBookEntries | src/elli/database/refractive_index_info.py:110-163 | the page loop of one book, with the page divider reset at the book's start, yields the entries of BookEntries |
| RefractiveIndexInfo.CollectShelfEntries | src/elli/database/refractive_index_info.py:107-165 | the book loop of one shelf, with the book divider reset at the shelf's start, yields the entries of ShelfEntries |
| RefractiveIndexInfo.CollectEntries | src/elli/database/refractive_index_info.py:105-165 | the loop over all shelves yields the entries of LibraryEntries |
| RefractiveIndexInfo.LatestPageDividerNone | src/elli/database/refractive_index_info.py:110 | the page type is NA iff no earlier page of the book is a DIVIDER |
| RefractiveIndexInfo.LatestPageDividerIsLast | src/elli/database/refractive_index_info.py:162-163 | the page type is the heading of the last DIVIDER page before the entry |
| RefractiveIndexInfo.LatestPageDividerFound | src/elli/database/refractive_index_info.py:162-163 | a page type that is not NA is the heading of the last DIVIDER page before the entry |
| RefractiveIndexInfo.LatestBookDividerNone | src/elli/database/refractive_index_info.py:107 | the book divider is NA iff no earlier book of the shelf is a DIVIDER |
| RefractiveIndexInfo.LatestBookDividerIsLast | src/elli/database/refractive_index_info.py:164-165 | the book divider is the heading of the last DIVIDER book before the entry |
| RefractiveIndexInfo.LatestBookDividerFound | src/elli/database/refractive_index_info.py:164-165 | a book divider that is not NA is the heading of the last DIVIDER book before the entry |
| RefractiveIndexInfo.BookEntryOrigin | src/elli/database/refractive_index_info.py:110-163 | every entry of a book is made from one of its data pages with the page divider in force before that page |
| RefractiveIndexInfo.ShelfEntryOrigin | src/elli/database/refractive_index_info.py:107-165 | every entry of a shelf comes from one of its data books with the book divider in force before that book |
| RefractiveIndexInfo.LibraryEntryOrigin | src/elli/database/refractive_index_info.py:105-165 | every entry of the library is the one built for some data page of a data book, with the book and page dividers last seen before it |
| RefractiveIndexInfo.CatalogRowOrigin | src/elli/database/refractive_index_info.py:113-177 | every catalog row is some data page's row: its identifiers, names, dividers and data path; for an unmatched page name NA author, year and ranges and the whole name as comment; for a matched one the authors, the year as a number (NA if it does not parse), the joined comments, and each range 1000·x when its group parses to x (µm to nm) and NA otherwise |
| RefractiveIndexInfo.OneEntryPerDataPage | src/elli/database/refractive_index_info.py:105-165 | the catalog's (shelf, book, page) keys are exactly those of the data pages in data books, once each, in library order |
| RefractiveIndexInfo.Unique | src/elli/database/refractive_index_info.py:179-181 | `unique()` holds every value of the column and no value twice |
| RefractiveIndexInfo.RII.constructor | src/elli/database/refractive_index_info.py:90-181 | for a library with at least one data page, the catalog is the converted entry list of the whole library, and books, long names and pages are the distinct values of their columns |
| RefractiveIndexInfo.RII.Names | src/elli/database/refractive_index_info.py:240-242 | the list the fuzzy matcher searches holds every value of the field's column, each once |
| RefractiveIndexInfo.WhereEquals | src/elli/database/refractive_index_info.py:255 | `catalog.loc[catalog[field] == v]` holds exactly the catalog rows whose field is v |
| RefractiveIndexInfo.WhereEqualsCounts | src/elli/database/refractive_index_info.py:255 | the exact matches hold each row whose field is v exactly as often as the catalog does, and no other row |
| RefractiveIndexInfo.WhereEqualsSubsequence | src/elli/database/refractive_index_info.py:255 | the exact matches are a subsequence of the catalog: they keep its order |
| RefractiveIndexInfo.MatchesOfEach | src/elli/database/refractive_index_info.py:247-252 | the concatenated matches hold exactly the rows whose field is one of the suggestions |
| RefractiveIndexInfo.MatchesOfEachCounts | src/elli/database/refractive_index_info.py:247-252 | the concatenation holds a row (number of suggestions equal to its field) × (its count in the catalog) times, since each suggestion contributes its own exact matches |
| RefractiveIndexInfo.MatchesOfEachDistinctCounts | src/elli/database/refractive_index_info.py:247-252 | with distinct suggestions, a row whose field is suggested occurs as often as in the catalog, and any other row not at all |
| RefractiveIndexInfo.MatchesOfEachOrder | src/elli/database/refractive_index_info.py:247-252 | with distinct suggestions, the rows come in the order of the suggestion their field equals: all rows of the first suggestion, then those of the second, and so on |
| RefractiveIndexInfo.MatchesOfEachBlocks | src/elli/database/refractive_index_info.py:247-252 | with distinct suggestions, the rows of the concatenation matching one suggestion are exactly that suggestion's exact matches, in catalog order |
| RefractiveIndexInfo.Covering | src/elli/database/refractive_index_info.py:259-263 | the numeric filter keeps exactly the rows with lower_range ≤ wl ≤ upper_range (NA bounds fail), in their order |
| RefractiveIndexInfo.CoveringCounts | src/elli/database/refractive_index_info.py:259-263 | the numeric filter keeps each row whose range contains wl exactly as often as it occurs, and drops every other row |
| RefractiveIndexInfo.CoveringAllKeeps | src/elli/database/refractive_index_info.py:264-269 | the list filter keeps exactly the rows whose range contains every listed wavelength; an empty list keeps all |
| RefractiveIndexInfo.CoveringAllCounts | src/elli/database/refractive_index_info.py:264-269 | the list filter keeps each row whose range contains every listed wavelength exactly as often as it occurs, and drops every other row |
| RefractiveIndexInfo.CoveringAllSubsequence | src/elli/database/refractive_index_info.py:264-269 | the list filter keeps the rows' order |
| RefractiveIndexInfo.SingleAsList | src/elli/database/refractive_index_info.py:259-269 | a one-element list filters exactly like the number itself |
| RefractiveIndexInfo.SearchFinds | src/elli/database/refractive_index_info.py:239-275 | the search fails iff the filter is of another type, unless a fuzzy search found no suggestion (then it returns the rows whose field is ""); otherwise a row is returned iff it is in the catalog, its field is the query (or one of the suggestions) and it passes the filter |
| RefractiveIndexInfo.FilteredCounts | src/elli/database/refractive_index_info.py:257-269 | with no filter, a number or a list, a row passing the filter is kept as often as the matches hold it and a failing row is dropped |
| RefractiveIndexInfo.SearchCounts | src/elli/database/refractive_index_info.py:239-275 | a successful search returns a row that fails the filter 0 times; otherwise an exact search returns it as often as the catalog holds it when its field is the query (else 0 times), and a fuzzy one (number of suggestions equal to its field) × (its catalog count) times |
| RefractiveIndexInfo.SearchOrder | src/elli/database/refractive_index_info.py:239-275 | an exact search, or a fuzzy one without suggestions, returns catalog rows in catalog order; a fuzzy one returns the concatenated matches with some rows filtered out, so with distinct suggestions its rows are grouped by suggestion, most likely first (the promise at line 76) |
| RefractiveIndexInfo.RII.Search | src/elli/database/refractive_index_info.py:231-275 | the method with its filter loop returns SearchResult, whose meaning SearchFinds states |
| RefractiveIndexInfo.RII.SearchBook | src/elli/database/refractive_index_info.py:183-210 | searches the book column with the book list, or the long-name column with the long-name list |
| RefractiveIndexInfo.RII.SearchPage | src/elli/database/refractive_index_info.py:212-229 | searches the page column with the page list |
| RefractiveIndexInfo.MatchIndices | src/elli/database/refractive_index_info.py:304-306 | the index holds exactly the positions of the rows matching both book and page, ascending |
| RefractiveIndexInfo.UniqueMatch | src/elli/database/refractive_index_info.py:304-309 | the index has length one iff exactly one row matches book and page |
| RefractiveIndexInfo.FindUnique | src/elli/database/refractive_index_info.py:304-309 | a lookup succeeds iff exactly one row matches, returns that row, and otherwise raises "No entry found." |
| RefractiveIndexInfo.DataFileOf | src/elli/database/refractive_index_info.py:304-314 | the data file read is the one at the unique row's path; no unique row gives "No entry found." |
| RefractiveIndexInfo.Coefficients | src/elli/database/refractive_index_info.py:357-359 | the coefficients are the space-separated tokens' values, at least one; a token that does not parse raises |
| RefractiveIndexInfo.PairsLayout | src/elli/database/refractive_index_info.py:360-364 | `zip(c[i::2], c[i+1::2])` pairs c[i+2k] with c[i+2k+1] and has ⌊(len − i)/2⌋ pairs, a trailing odd coefficient being dropped |
| RefractiveIndexInfo.QuadsLayout | src/elli/database/refractive_index_info.py:399-410 | the four strided slices of formula 4 give the tuples c[1..4] and c[5..8], as far as the list reaches |
| RefractiveIndexInfo.SellmeierLayout | src/elli/database/refractive_index_info.py:356-380 | formulas 1 and 2 are Sellmeier terms (c[2k+1], c[2k+2]), squared second member for formula 1, plus EpsilonInf(c[0]) |
| RefractiveIndexInfo.Formula4Layout | src/elli/database/refractive_index_info.py:395-415 | formula 4 is a polynomial with constant c[0] and pairs from c[9], plus the custom-exponent Sellmeier of the tuples c[1..4], c[5..8] |
| RefractiveIndexInfo.LoadTabulated | src/elli/database/refractive_index_info.py:319-354 | loading a page whose DATA is one tabulated relation raises the missing "data" key when it is absent, and otherwise returns a Table with one entry per data row: wavelength 1000·λ (µm to nm) and n + ik from the "n k" columns, or (n, 0) or (0, k) from the "n" or "k" column |
| RefractiveIndexInfo.RelationDispersion | src/elli/database/refractive_index_info.py:319-432 | a relation fails with "Unimplemented Format." iff its type is unknown; a converted relation is an index dispersion iff its type is tabulated or formula 5 |
| RefractiveIndexInfo.ConvertAllOk | src/elli/database/refractive_index_info.py:319-434 | the dispersion list is built iff every relation converts, and then holds one result per relation in order |
| RefractiveIndexInfo.FirstFailure | src/elli/database/refractive_index_info.py:319-434 | the error raised is that of the first relation that fails |
| RefractiveIndexInfo.ToIndex | src/elli/database/refractive_index_info.py:440-442 | a dispersion that is not an index dispersion is replaced by its `as_index()`, and an index dispersion is kept |
| RefractiveIndexInfo.Combine | src/elli/database/refractive_index_info.py:436-445 | one dispersion is returned as it is; otherwise, when an index relation is present, an IndexDispersionSum whose k-th part is the k-th dispersion's index form (kept if already an index dispersion, else its `as_index()`), else a DispersionSum of the list |
| RefractiveIndexInfo.LoadDispersionShape | src/elli/database/refractive_index_info.py:304-445 | a load needs a unique row, a DATA entry and only known relation types; a single relation is its own result; with any other count the result is an IndexDispersionSum (of index dispersions only) iff a tabulated or formula 5 relation is present |
| RefractiveIndexInfo.CombineRelations | src/elli/database/refractive_index_info.py:436-445 | with any number of relations but one, the combination holds one part per relation in file order: its dispersion, or its index form when an index-type relation is present (then it is an IndexDispersionSum, else a DispersionSum) |
| RefractiveIndexInfo.LoadDispersionOutcome | src/elli/database/refractive_index_info.py:304-445 | a missing row or file and a file without DATA raise their errors; otherwise the load succeeds iff every relation converts, and with a count other than one its parts are the relations' dispersions in file order, in index form when an index-type relation is present |
| RefractiveIndexInfo.LoadDispersionFailure | src/elli/database/refractive_index_info.py:319-434 | a load whose relations convert up to relation i, which fails, raises relation i's error |
| RefractiveIndexInfo.CollectRelations | src/elli/database/refractive_index_info.py:319-434 | the relation loop builds the list ConvertAll describes, stopping at the first failure, and its contains-index flag is true iff an index-type relation was seen |
| RefractiveIndexInfo.ConvertToIndex | src/elli/database/refractive_index_info.py:439-442 | the enumerate loop replaces each non-index dispersion by its index form and leaves the rest |
| RefractiveIndexInfo.RII.LoadDispersion | src/elli/database/refractive_index_info.py:290-445 | the method returns LoadDispersionResult, whose meaning LoadDispersionShape states |
| RefractiveIndexInfo.RII.GetReference | src/elli/database/refractive_index_info.py:447-470 | returns the REFERENCES entry of the unique page's file, and "No entry found." without a unique row |
| RefractiveIndexInfo.RII.GetComment | src/elli/database/refractive_index_info.py:472-495 | returns the COMMENTS entry of the unique page's file, and "No entry found." without a unique row |
| SpectraRay.AngleTokensLayout | src/elli/importer/spectraray.py:44 | `split(sep)[2::2]` holds tokens 2, 4, 6, … and has ⌊(n − 1)/2⌋ of them for n ≥ 2 tokens |
| SpectraRay.Angles | src/elli/importer/spectraray.py:44 | the angles parse iff every angle token is a number; they are the tokens' values in order; otherwise the error names a token that is not a number |
| SpectraRay.ColumnLabelsLayout | src/elli/importer/spectraray.py:45-48 | the product index has two labels per angle: column 2i is (angle i, Ψ), column 2i+1 is (angle i, Δ) |
| SpectraRay.ValueColumns | src/elli/importer/spectraray.py:54 | after the descending column sort the columns are Ψ and Δ, Ψ first since its symbol sorts above Δ's |
| SpectraRay.KeptColumns | src/elli/importer/spectraray.py:36 | `dropna(how="all")` keeps exactly the columns holding some number, in their order |
| SpectraRay.StackLineMembers | src/elli/importer/spectraray.py:51-52 | a line's stacked rows are exactly its (angle, wavelength) rows with Ψ or Δ present |
| SpectraRay.StackMembers | src/elli/importer/spectraray.py:51-52 | the stacked rows are exactly the stacked rows of the individual lines |
| SpectraRay.StackSplit | src/elli/importer/spectraray.py:51 | the stack is the stack of the lines before line l, then line l's rows, then the stack of the lines after it |
| SpectraRay.StackCounts | src/elli/importer/spectraray.py:51 | each line's rows are counted once: the multiset of stacked rows is that of the lines before l, plus line l's rows, plus the lines after l |
| SpectraRay.StackedRowOrigin | src/elli/importer/spectraray.py:51-52 | every stacked row is some line's Ψ and Δ at one angle |
| SpectraRay.InsertSorted | src/elli/importer/spectraray.py:53 | inserting into rows sorted by (angle, wavelength) keeps them sorted and adds exactly the row |
| SpectraRay.SortByKeySorts | src/elli/importer/spectraray.py:53 | `sort_index()` orders the rows by (angle, wavelength) and is a permutation of them |
| SpectraRay.Wrap | src/elli/importer/spectraray.py:57-59 | Δ ≤ 180 is kept and Δ > 180 becomes Δ − 360; the result is ≤ 180 for Δ ≤ 540 and stays above −180 when Δ is |
| SpectraRay.WrapIdempotent | src/elli/importer/spectraray.py:57-59 | wrapping an already wrapped Δ changes nothing, for Δ ≤ 540 |
| SpectraRay.WrapDeltas | src/elli/importer/spectraray.py:57-59 | the wrap touches only Δ: angle, wavelength and Ψ are unchanged, NaN stays NaN and every number is wrapped |
| SpectraRay.RowsShape | src/elli/importer/spectraray.py:51-59 | the output rows are sorted by (angle, wavelength) and each is a line's Ψ and Δ at one angle, with Δ wrapped |
| SpectraRay.RowsCounts | src/elli/importer/spectraray.py:51-59 | sorting only reorders: the rows are, as a multiset, the stacked rows with Δ wrapped, and line l contributes exactly its own wrapped rows beside those of the other lines |
| SpectraRay.RowsComplete | src/elli/importer/spectraray.py:51-59 | every (line, angle) with a number in Ψ or Δ appears among the rows, with Δ wrapped |
| SpectraRay.PsiDeltaShape | src/elli/importer/spectraray.py:28-61 | the reader fails on an empty file (read_csv's EmptyDataError); on success the header's angle tokens are numbers, there are two kept columns per angle, the columns are Ψ then Δ, and the rows are sorted and each is a line's values at one angle with Δ wrapped |
| SpectraRay.PsiDeltaOutcome | src/elli/importer/spectraray.py:28-61 | for a file with a header: a header angle token that is not a number is the error; otherwise the reader fails with a length mismatch iff the kept columns are not two per angle, and else returns the columns Ψ, Δ with the stacked, sorted, wrapped rows |
| SpectraRay.PsiDeltaComplete | src/elli/importer/spectraray.py:28-61 | every (line, angle) with a number in Ψ or Δ appears in the output, with Δ wrapped |
| SpectraRay.MuellerLabelsRowMajor | src/elli/importer/spectraray.py:84-101 | label 4(i−1)+(j−1) is "Mij": the sixteen labels are the matrix elements row by row |
| SpectraRay.MuellerWindow | src/elli/importer/spectraray.py:80-101 | `iloc[:, -17:-1]` with sixteen labels succeeds iff there are at least 17 value columns, and then keeps, per line, the columns from the 17th-last up to the last, excluded; with fewer columns the label assignment raises a length mismatch |

## Left out

- `unitConversion` and `Structure`, `SolverExpm`, `Solver2x2` and `Result` are not part of this model. The constructor takes the wavelengths already in metres, and `evaluate` returns which solver it would build.
- Berreman.Experiment.constructor, Berreman.Experiment.SetVector: only the real parts of a Stokes vector are used. Complex Stokes entries are not modelled.
- Berreman.JonesOfStokes: numpy's inf and NaN results are all one value, `NonFinite`. Their exact floating-point values are not modelled.
- Floating-point rounding is not modelled. The comparison `Q == -1` is exact over the reals, and `s0 · p` is taken to equal the square root it stands for.
- Berreman.Experiment.constructor, Berreman.Experiment.SetVector: the derived Jones vector of a Stokes vector uses the corrected sign of V (see Findings); the constructor reaches it through `setVector` (src/berreman4x4/experiment.py:33). The source's formula is kept as `JonesOfStokesAsWritten`.
- The settings module is a parameter of `Evaluate`, and its shipped values are the constant `DefaultSettings`.
- YAML loading and reading the package's files are left out. The library tree is a datatype, and the page data files are a map from catalog path to their parsed contents. A missing path is a `FileNotFound` error.
- Oracles:
  - the page-name regular expression;
  - `float` and `pd.to_numeric`;
  - `os.path.normpath`;
  - `pd.read_table` for tabulated data;
  - rapidfuzz's `process.extract`: the score cutoff of 80 and the limit of 10 belong to that oracle.
- RefractiveIndexInfo.CatalogRowOrigin: the year column's `Int64` dtype is not modelled; the year is a real number.
- RefractiveIndexInfo.RII.constructor: a library without any data page makes pandas build a frame without columns, and the source then raises a KeyError on `catalog["year"]` (src/elli/database/refractive_index_info.py:167-170). The model does not build such an object: the constructor requires at least one entry.
- RefractiveIndexInfo.FormulaDispersion, RefractiveIndexInfo.Formula4Layout: the `f / 1e3**e` scaling of the polynomial terms of formulas 3, 4 and 5 (for formula 4, src/elli/database/refractive_index_info.py:412-413) is left out, because it needs real exponentiation; the raw (f, e) pairs are kept.
- The `.add` calls are modelled as lists of terms.
- Evaluating a dispersion, `as_index()` itself and `get_mat` / `IsotropicMaterial` are left out.
- A KeyError on a missing YAML key is `MissingKey`. The model checks the keys `DATA`, `data`, `coefficients`, `REFERENCES` and `COMMENTS`. A relation's `type` (src/elli/database/refractive_index_info.py:320) is a mandatory field of `Relation`, so the KeyError for a relation without one is not modelled; the library tree's own keys are fields of its datatypes too.
- SpectraRay.PsiDelta: `read_csv` is a parameter that returns the split table. The `decimal` argument reaches only `read_csv`, so it lives inside that oracle; the header's angles always go through Python's `float` (src/elli/importer/spectraray.py:44), which expects a point, and the `number` oracle stands for that `float`, not for a reader honouring `decimal`. `sep` is one character. A trailing newline on the header's last token is the float oracle's business.
- SpectraRay.PsiDelta: the errors `read_csv` itself raises are not modelled (src/elli/importer/spectraray.py:28-35). A file with a header and no data line raises pandas' EmptyDataError, because of `skiprows=1`; the model reads it as a table without lines. A data line with more fields than the first raises a ParserError; the table oracle is given whatever split it returns.
- SpectraRay.SortByKeySorts: the order of rows with equal (angle, wavelength) keys is not stated, since pandas' default sort does not promise one.
- SpectraRay.StackLine: `stack` dropping an (angle, wavelength) row whose Ψ and Δ are both NaN is modelled. The index and dtype changes of the pandas objects are not.
- SpectraRay.Wrap: it shifts by 360 once, as the code does, so only Δ ≤ 540 is guaranteed to end at or below 180.
- `read_spectraray_rho` / `calc_rho` are not part of this model.

## Findings

| source | as written | input that shows it | evidently intended | confidence | as-written member | corrected member |
|---|---|---|---|---|---|---|
| src/berreman4x4/experiment.py:77 | `b = U / (2a) − 1j · V / (2a)`, while lines 56-60 derive S3 = −2 Im(a · conj(b)) | Jones [3, 4i] → Stokes [25, −7, 0, 24] → Jones [0.6, −0.8i], the opposite circular handedness | `b = U / (2a) + 1j · V / (2a)`, which returns [0.6, 0.8i] = [3, 4i] / 5 | not executed | Berreman.AsWrittenRoundTripFlipsHandedness | Berreman.JonesStokesRoundTrip |
