# Tesla connector scraper and search dashboard, modelled in Dafny

The repository has two programs:

- `scrape_tesla_connectors.py` walks the side navigation of the Tesla Model 3
  electrical-reference service pages and visits every connector page it links to.
  For each page it records:
  - the name;
  - the meta panel (Tesla part number, connector, body colour);
  - a description joined from the figure captions;
  - the pinout table, normalised to one dictionary per cavity;
  - the image URLs.

  A page that fails is skipped, and the rest are saved in `connectors.json`.
- `app.py` loads that list and derives per-connector cavity counts, a
  manufacturer and text columns. It offers sorted pick-lists of wire and body
  colours, and shows the connectors that pass a mask of up to eight filters.

The model has six modules:

- `Wrappers`: `Option` and `Result`.
- `Text`: the Python `str` operations used.
- `Sorting`: Python's string order and `sorted(set)`.
- `Pinout`: the pinout-table normaliser.
- `Scraper`: meta fields, description, images, link discovery, one page, and the scrape loop.
- `Dashboard`: derived columns, pick-lists and the filter mask.

How the model is built:

- Each loop of the source is a `method` with loop invariants. The method is proved equal to a
  specification function, and the properties are lemmas about that function.
- The dashboard's boolean mask is an `array<bool>`, ANDed in place by one method per filter.
- The network and HTML parsing are parameters:
  - `fetch` maps a URL to the parsed page, or to `None` when the request raises.
  - `resolve` stands for `urljoin`.

Two facts about the code that the model keeps:

- A page without a `table` gets `pinout_table = None`, not an empty list.
- The pages are scraped one after another, each inside its own `try`.

## Model

| member | source | states |
|---|---|---|
| Text.UpperIgnoresCase | app.py:109-117 | Upper-casing both sides makes the comparison forget the original case: `Upper(Lower(s)) == Upper(s)` and `Upper` is idempotent |
| Text.ContainsShorter | scrape_tesla_connectors.py:65-67 | A string only contains substrings no longer than itself |
| Text.Join | scrape_tesla_connectors.py:78 | `" ".join`: empty for no parts; otherwise starts with the first part, ends with the last, and has the parts' total length plus one separator between neighbours |
| Text.JoinSnoc | scrape_tesla_connectors.py:76-78 | Appending a caption appends the separator and that caption to the join |
| Text.TakeWord | app.py:34 | The longest prefix free of white space, ending at the end of the string or at a space |
| Text.LeadingSpaces | app.py:34 | The length of the leading run of white space |
| Text.FirstToken | app.py:34 | `split()[0]` or "": no white space inside; empty exactly when the string is all white space; otherwise the maximal word after the leading spaces |
| Sorting.LessIrreflexive | app.py:46 | Python string order is irreflexive |
| Sorting.LessAsymmetric | app.py:46 | Python string order is asymmetric |
| Sorting.LessTransitive | app.py:46 | Python string order is transitive |
| Sorting.LessTotal | app.py:46 | Any two distinct strings are ordered one way or the other |
| Sorting.MinimumExists | app.py:46 | Every non-empty set of strings has a least element |
| Sorting.SortedList | app.py:46 | `sorted(list(s))`: strictly increasing, with exactly the elements of the set, one each |
| Sorting.SortedUnique | app.py:49-50 | Two strictly sorted lists with the same elements are equal, so sorting the sorted body colours a second time changes nothing |
| Pinout.CellTexts | scrape_tesla_connectors.py:94 | One text per `td`, in order |
| Pinout.UnusedRowUpTo | scrape_tesla_connectors.py:89-91 | After the loop has written `headers[1..k]`, the row's keys are exactly `headers[..k]` |
| Pinout.UnusedRow | scrape_tesla_connectors.py:89-92 | Raises exactly when there are no headers (`headers[0]`); otherwise builds the unused row |
| Pinout.UnusedRowValues | scrape_tesla_connectors.py:89-91 | An unused row has every header as a key; each later header reads "unused"; the first reads the first cell unless a later header repeats it |
| Pinout.ZipKeys | scrape_tesla_connectors.py:96 | `dict(zip(...))` has exactly the headers that have a cell |
| Pinout.FillFacts | scrape_tesla_connectors.py:98-100 | Filling adds exactly the missing headers with `None` and keeps every value already present |
| Pinout.DataRow | scrape_tesla_connectors.py:96-100 | Zip and fill loops compute the data row |
| Pinout.ZipValue | scrape_tesla_connectors.py:96 | A zipped header holds the cell of its last occurrence |
| Pinout.DataRowKeys | scrape_tesla_connectors.py:96-100 | A data row has exactly the header keys |
| Pinout.DataRowValue | scrape_tesla_connectors.py:96-100 | A header gets the cell at its last position that has a cell (duplicate headers: the later one wins) |
| Pinout.DataRowMissing | scrape_tesla_connectors.py:98-100 | A header with no cell at any of its positions reads `None` |
| Pinout.DataRowPositional | scrape_tesla_connectors.py:96-100 | With distinct headers, header i reads cell i, or `None` when the row is shorter |
| Pinout.Emit | scrape_tesla_connectors.py:86-101 | One `tr` adds at most one row, and every row it adds has exactly the header keys |
| Pinout.RowsOf | scrape_tesla_connectors.py:85-102 | Every emitted row has exactly the header keys, and there are at most as many rows as `tr`s |
| Pinout.NormaliseTr | scrape_tesla_connectors.py:86-101 | The loop body computes what one `tr` emits |
| Pinout.ParsePinout | scrape_tesla_connectors.py:81-104 | The table loop computes the normalised pinout, `None` without a table, or the `IndexError` |
| Pinout.RowsStep | scrape_tesla_connectors.py:85-101 | One more `tr` appends what it emits, or makes the table raise |
| Pinout.RowsFailFrom | scrape_tesla_connectors.py:87-89 | A `tr` that raises makes the whole table raise |
| Pinout.RowsFailureSticks | scrape_tesla_connectors.py:85-92 | Once a prefix of `tr`s has raised, the whole table has |
| Pinout.RowsFailureIff | scrape_tesla_connectors.py:87-89 | The normaliser raises exactly when the header list is empty and some `tr` is an unused row |
| Pinout.RowsAppend | scrape_tesla_connectors.py:85-101 | Rows come out in source order: the rows of `a + b` are those of `a` then those of `b` |
| Pinout.RowsOfOne | scrape_tesla_connectors.py:86-101 | A single `tr` emits exactly its own row or nothing |
| Pinout.RowsCount | scrape_tesla_connectors.py:94-101 | Exactly one row is emitted per `tr` that has at least one `td` |
| Pinout.PinoutNoneIff | scrape_tesla_connectors.py:81-104 | `pinout_table` is `None` exactly when the page has no table |
| Pinout.ExampleUnusedRow | scrape_tesla_connectors.py:87-92 | A two-cell colspan "Unused" row becomes `{Cavity: "3", Wire Color: "unused", Terminal Manufacturer: "unused"}` |
| Scraper.Classify | scrape_tesla_connectors.py:63-70 | A label selects the part number iff it contains "part number", the connector iff it is "connector", the colour iff it is "color" |
| Scraper.NoneIfEmpty | scrape_tesla_connectors.py:66-70 | An empty value text is stored as `None`; any other text is stored as it is |
| Scraper.ParseMeta | scrape_tesla_connectors.py:53-70 | The wrapper loop computes the three meta fields, all `None` without a meta panel |
| Scraper.ApplyWrapperFrame | scrape_tesla_connectors.py:61-70 | A wrapper changes only the field its label selects |
| Scraper.MetaUnset | scrape_tesla_connectors.py:53-55 | A field that no wrapper selects stays `None` |
| Scraper.MetaLastWins | scrape_tesla_connectors.py:58-70 | A field holds the value of the last wrapper that selects it |
| Scraper.DescriptionOf | scrape_tesla_connectors.py:73-78 | The description is `None` exactly when there are no captions |
| Scraper.ParseDescription | scrape_tesla_connectors.py:73-78 | The caption loop gives `None` without captions and their space-join otherwise |
| Scraper.ImageUrls | scrape_tesla_connectors.py:106-108 | At most one URL per `img`, and every URL has one of the seven image extensions, ignoring case |
| Scraper.ImageUrlsAppend | scrape_tesla_connectors.py:108 | Image URLs keep document order |
| Scraper.ImageUrlsMember | scrape_tesla_connectors.py:108 | A URL is listed iff some `img` with a non-empty src resolves to it and it has an image extension |
| Scraper.NavHrefs | scrape_tesla_connectors.py:32 | At most one href per anchor |
| Scraper.NavHrefsAppend | scrape_tesla_connectors.py:32-38 | The selected hrefs keep document order, duplicates included: those of `a + b` are those of `a` then those of `b` |
| Scraper.NavHrefsOne | scrape_tesla_connectors.py:32 | One anchor contributes its href exactly when it has the `tds-site-nav-item` class and an href, and nothing otherwise |
| Scraper.NavHrefsMember | scrape_tesla_connectors.py:32 | An href is selected exactly when some marked anchor carries it |
| Scraper.ResolveAll | scrape_tesla_connectors.py:34-38 | One resolved URL per href, in order |
| Scraper.DiscoverLinks | scrape_tesla_connectors.py:23-39 | Discovery fails exactly when the fetch, the aside or the nav is missing; otherwise it returns the resolved hrefs |
| Scraper.GetConnectorLinks | scrape_tesla_connectors.py:23-39 | `get_connector_links`: the loop computes the discovered links or the exception |
| Scraper.Extract | scrape_tesla_connectors.py:41-110 | A fetched page fails exactly when its pinout table raises; a record carries the URL it came from |
| Scraper.ParseConnectorPage | scrape_tesla_connectors.py:41-110 | `parse_connector_page` returns the record of the page, or the exception that ends it |
| Scraper.Take | scrape_tesla_connectors.py:120-121 | `links[:limit]`: a prefix of the links, of length `min(limit, len)`, or all of them without a limit |
| Scraper.Scraped | scrape_tesla_connectors.py:123-131 | There are at most as many records as links |
| Scraper.ScrapeConnectors | scrape_tesla_connectors.py:112-134 | `main`: nothing is saved when link discovery raises; otherwise the records of the successful pages among the first `limit` links, in link order |
| Scraper.ScrapedCount | scrape_tesla_connectors.py:124-131 | Every page is either saved or counted as a failure: records + failures = links |
| Scraper.ScrapedAppend | scrape_tesla_connectors.py:124-131 | A failing page never stops the pages after it; records keep link order |
| Scraper.ScrapedFromLinks | scrape_tesla_connectors.py:124-128 | Every saved record is the outcome of one of the links, and its URL is that link |
| Scraper.PageOutcomeUrl | scrape_tesla_connectors.py:43 | A successful page's record carries its own URL |
| Dashboard.Pinouts | app.py:24 | A missing pinout table counts as the empty list |
| Dashboard.CountValue | app.py:30-32 | A count of rows never exceeds the number of rows |
| Dashboard.ConnectedCount | app.py:27-29 | The connected count never exceeds the number of rows |
| Dashboard.CavityPartition | app.py:26-32 | Connected + unconnected + rows without a terminal manufacturer = total cavities |
| Dashboard.ConnectorCavityPartition | app.py:26-32 | Per connector, the connected and unconnected columns never exceed the total, and they fall short of it by exactly the cavities without a terminal manufacturer |
| Dashboard.CountValueZero | app.py:132-139 | A count is zero exactly when no row has that value |
| Dashboard.CountValueAppend | app.py:132-139 | Counts add up over consecutive runs of rows |
| Dashboard.UnusedRowIsUnconnected | app.py:28-31 | An unused row from the scraper is counted as unconnected and never as connected |
| Dashboard.DataRowCavityStatus | app.py:28-31 | With distinct headers, a data row is unconnected iff its Terminal Manufacturer cell reads "unused"; it has no manufacturer iff the row ends before that column |
| Dashboard.RowColorsMember | app.py:42-45 | A colour is collected from a pinout iff some row has it as Wire Color and it is neither empty nor "unused" |
| Dashboard.WireColorSetMember | app.py:40-45 | A colour is collected iff some row of some connector has it, and it is neither empty nor "unused" |
| Dashboard.WireColorOptions | app.py:40-47 | The wire-colour pick-list is "ANY" followed by the collected colours, each once, strictly increasing; only "ANY" without connectors |
| Dashboard.BodyColorOptions | app.py:49-51 | The body-colour pick-list is "ANY" followed by every non-empty body colour, each once, strictly increasing; only "ANY" without connectors |
| Dashboard.TextFiltersIgnoreCase | app.py:109-117 | The three text filters give the same answer for a filter text and its lower-cased form |
| Dashboard.CheckWireInCavity | app.py:123-128 | `check_wire_in_cavity`: true iff some row has that Cavity and that Wire Color |
| Dashboard.CountSpecificWires | app.py:132-138 | `count_specific_wires`: the number of rows whose Wire Color is that colour |
| Dashboard.FilterConnectors | app.py:141 | The filtered list is never longer than the input |
| Dashboard.AndMask | app.py:106-120 | `mask &= keep`: each entry becomes its old value AND the condition, and nothing else changes |
| Dashboard.AndCavityFilter | app.py:122-129 | Each entry is ANDed with the cavity test on that connector's pinout |
| Dashboard.AndWireCountFilter | app.py:131-139 | Each entry is ANDed with "count of that colour equals the quantity" |
| Dashboard.AndColumnFilters | app.py:106-120 | Both ranges are inclusive; text filters and body colour apply only when set |
| Dashboard.SelectMasked | app.py:141 | `df[mask]` keeps the masked connectors in order |
| Dashboard.ApplyFilters | app.py:103-143 | The whole mask selects exactly the connectors that pass every active filter, in input order; an empty input gives an empty result |
| Dashboard.FilterAppend | app.py:141 | The filter keeps input order |
| Dashboard.FilterMember | app.py:103-141 | A connector is shown iff it is in the input and passes every active filter |
| Dashboard.FilterKeepsAll | app.py:104-141 | When every connector passes, the input comes back unchanged |
| Dashboard.MaxTotalCavities | app.py:68 | The slider maximum bounds every connector's total and is attained (0 without connectors) |
| Dashboard.MaxUnconnectedCavities | app.py:77 | The slider maximum bounds every unconnected count and is attained (0 without connectors) |
| Dashboard.DefaultsKeepAll | app.py:67-99 | With the widgets at their initial values, every connector is shown |

## Left out

- `get_soup`: the HTTP request, its headers and the HTML parser are not modelled. A parsed page, or `None` when the request raises, is the `fetch` parameter. Fetching is assumed deterministic per URL.
- BeautifulSoup search: `get_text(strip=True)` and most of the class-based `find`/`find_all` selection are inputs. A `Page` holds the texts and attributes the scraper reads.
- The one selection the model computes is the nav anchors (`scrape_tesla_connectors.py:32`). `Scraper.NavHrefs` keeps the anchors whose `navItem` flag (the `tds-site-nav-item` class) is set and that have an href.
- `urljoin` is the `resolve` parameter. Its RFC 3986 resolution is not modelled.
- `time.sleep`, every `print`, and `json.dump` to `connectors.json` are not modelled. `Scraper.ScrapeConnectors` returns the list that would be written.
- `str.lower`, `str.upper` and `str.split()` cover ASCII letters and ASCII white space only. Unicode case mapping and Unicode spaces are not modelled.
- `Dashboard.TeslaPartNumberMatches`: pandas `str.contains` treats the filter text as a regular expression (`app.py:113`). The model uses a literal substring test, so texts with regex metacharacters are not modelled.
- `Dashboard.ConnectorPartNumberMatches`: the same regex divergence applies to the connector filter (`app.py:117`).
- `Dashboard.Manufacturer`: a missing `connector` gives "" here. pandas `astype(str)` yields the text "None", so its manufacturer would be "None".
- A `connector`, `color` or `tesla_part_number` value that is not a string or null is not modelled. The record fields are `Option<string>`.
- A `Terminal Manufacturer` or `Wire Color` value that is not a string is not modelled. Pinout cells are strings or `None`.
- `CONNECTOR_LIMIT` is a natural number or `None`. A negative limit, which Python slicing would count from the end, is not modelled.
- Loading `connectors.json` in `app.py` and its two error messages are not modelled. Neither are the Streamlit widgets and the result table. The dashboard takes the records and the widget values as parameters.
- The second `sorted` of the body colours (`app.py:50`) is not repeated. `Sorting.SortedUnique` shows that it changes nothing.
- Exceptions other than a failed fetch and the `IndexError` of an unused row without headers are not modelled.
  - `urljoin` raises `ValueError` on a malformed IPv6 netloc (`scrape_tesla_connectors.py:37`, `:108`), which the total `resolve` parameter cannot express.
  - Errors raised inside BeautifulSoup are not modelled either.
- Key order within a pinout row is not modelled: a row is a Dafny `map`. In Python each row dict keeps insertion order, which is header order and is what `json.dump` writes.
