# Sitemap serialiser, modelled in Dafny

A model of the `com.mandt.sitemap` library, which writes sitemaps.org
protocol 0.9 XML. The model has four parts:

- **`Item`**: one `<url>` entry. It holds a location, an optional
  last-modification day, an optional change frequency and a priority.
- **`Sitemap`**: an ordered list of items, plus an optional location and
  an optional date. It renders in one of two ways:
  - as a standalone `<urlset>` document;
  - as one `<sitemap>` entry of an index.
- **`SitemapIndex`**: an ordered list of sitemaps, rendered as
  `<sitemapindex>`.
- **`ModificationFrequency`**: the seven-word change-frequency enum.

Modelling choices:

- Records are immutable datatypes. A Java setter is a function that
  returns the updated record.
- The `java.io.Writer` is an append-only `Writer(text)`. A renderer takes a
  writer and returns it with its output appended, one write per write call
  in the source.
- An index render whose member has no location returns
  `Aborted(out, IllegalArgument(MissingLocation))`. `out` is everything
  written before the throw, including the `<sitemap>` opened for the
  failing member.
- Each renderer has a partner in module `Readback` or `IndexReadback`: a reader that parses
  the rendered text back into the record's fields. The round-trip lemmas
  prove that every rendering holds the fields it carries, and no others.
  The priority is carried only as the text `show(p)`, and only when it is
  not 0.5; a sitemap rendered on its own carries its items but not its own
  location or date.
  - Elements appear in the fixed order loc, lastmod, changefreq, priority,
    each at most once.
  - Optional elements appear exactly when the field is set. The priority
    appears exactly when it differs from 0.5.
  - Items and index entries appear in insertion order.
- The repository's three test scenarios are in modules `Fixtures` and
  `IndexFixtures`, stated as exact output texts.

Files:

| file | content |
|---|---|
| `options.dfy`, `writers.dfy`, `uris.dfy`, `markup.dfy` | option type, writer and failure, location text, `<tag>body</tag>` |
| `dates.dfy` | calendar days and their `yyyy-MM-dd` text, with a parser that inverts it |
| `priorities.dfy`, `frequencies.dfy` | priority clamp; the frequency enum |
| `items.dfy`, `sitemaps.dfy`, `sitemap_index.dfy` | the three records and their renderers |
| `readback.dfy`, `index_readback.dfy` | readers and round-trip lemmas for sitemaps and for indexes |
| `fixtures.dfy`, `index_fixtures.dfy` | the test scenarios |

## Model

| member | source | states |
|---|---|---|
| Items.New | src/main/java/com/mandt/sitemap/Item.java:57-73 | a new item has the given location, no date, no frequency, and priority 0.5 |
| Items.SetLastmod | src/main/java/com/mandt/sitemap/Item.java:78-80 | sets or clears the date and changes no other field |
| Items.SetModificationFrequency | src/main/java/com/mandt/sitemap/Item.java:85-88 | sets or clears the frequency and changes no other field |
| Items.SetPriority | src/main/java/com/mandt/sitemap/Item.java:98-106 | the stored priority is max(0.0, min(1.0, p)), always in [0.0, 1.0]; an in-range p is stored unchanged; no other field changes |
| Priorities.Clamp | src/main/java/com/mandt/sitemap/Item.java:98-106 | the clamp picks the point of [0.0, 1.0] nearest p, and equals max(0.0, min(1.0, p)) |
| Priorities.ClampKeepsInRangeValues | src/main/java/com/mandt/sitemap/Item.java:103-104 | a priority already in [0.0, 1.0] passes the clamp unchanged |
| Priorities.ClampIdempotent | src/main/java/com/mandt/sitemap/Item.java:98-106 | clamping twice gives the same result as clamping once |
| Items.Render | src/main/java/com/mandt/sitemap/Item.java:112-126 | the writes of one item append exactly the item's `<url>` text: `<loc>` always, then `<lastmod>`, `<changefreq>` and `<priority>` each when present |
| Items.TextFrame | src/main/java/com/mandt/sitemap/Item.java:113-125 | every item text starts with `<url><loc>`, the location verbatim and `</loc>`, and ends with `</url>` |
| Dates.Format | src/main/java/com/mandt/sitemap/Item.java:40-41 | the `yyyy-MM-dd` text of a day parses back to that day; it is ten characters for years below 10000, a longer text does not start with a zero, and it holds only digits and dashes |
| Dates.Padded | src/main/java/com/mandt/sitemap/Item.java:40-41 | a number field is a digit string whose value is the number, zero-padded to the field width and exactly that wide when the number fits; a field wider than its pattern has no leading zero |
| Dates.NumeralIsDecimal | src/main/java/com/mandt/sitemap/Item.java:40-41 | a digit string without a leading zero is the plain decimal numeral of its value |
| Dates.WideFieldIsDecimal | src/main/java/com/mandt/sitemap/Item.java:40-41 | a number too wide for its field is written as its plain decimal numeral, with no padding |
| Dates.WideYearIsDecimal | src/main/java/com/mandt/sitemap/Item.java:40-41 | a year of five or more digits is written as its plain decimal numeral before the `-MM-dd` part |
| Dates.FormatInjective | src/main/java/com/mandt/sitemap/Item.java:115-117 | different days never render as the same `<lastmod>` text |
| Frequencies.Name | src/main/java/com/mandt/sitemap/ModificationFrequency.java:12-42 | every variant's text is a non-empty word of lower-case ASCII letters, so it holds no markup |
| Frequencies.ValueOf | src/main/java/com/mandt/sitemap/ModificationFrequency.java:7-43 | looking a text up finds the variant with that name, or reports that no variant has it |
| Frequencies.NameRoundTrip | src/main/java/com/mandt/sitemap/ModificationFrequency.java:12-42 | looking up a variant's name gives the variant back |
| Frequencies.NameInjective | src/main/java/com/mandt/sitemap/ModificationFrequency.java:12-42 | distinct variants have distinct names |
| Frequencies.ExactlySevenVariants | src/main/java/com/mandt/sitemap/ModificationFrequency.java:7-43 | the enum has exactly the seven values always, hourly, daily, weekly, monthly, yearly and never, with pairwise distinct names |
| Sitemaps.Empty | src/main/java/com/mandt/sitemap/Sitemap.java:62-64 | a new sitemap has no items, no location and no date |
| Sitemaps.At | src/main/java/com/mandt/sitemap/Sitemap.java:72-75 | a sitemap built with a location has no items and reports that location |
| Sitemaps.SetLocation | src/main/java/com/mandt/sitemap/Sitemap.java:93-95 | the location reads back as the value given, and items and date are unchanged |
| Sitemaps.SetLastModification | src/main/java/com/mandt/sitemap/Sitemap.java:122-124 | sets the date, and items and location are unchanged |
| Sitemaps.Add | src/main/java/com/mandt/sitemap/Sitemap.java:132-134 | appends the item after the earlier items, which keep their order; reports a change |
| Sitemaps.AddAll | src/main/java/com/mandt/sitemap/Sitemap.java:142-144 | appends the collection in order after the earlier items; reports a change exactly when the collection is non-empty |
| Sitemaps.AddAllIsRepeatedAdd | src/main/java/com/mandt/sitemap/Sitemap.java:132-144 | adding a collection at once gives the same sitemap as adding its items one by one |
| Sitemaps.LocationIsLastSet | src/main/java/com/mandt/sitemap/Sitemap.java:112-114 | `getLocation` returns the location last given to the constructor or to `setLocation`; adding items or setting the date leaves it as it was |
| Sitemaps.RenderItems | src/main/java/com/mandt/sitemap/Sitemap.java:154-156 | rendering the items through one writer appends their texts in list order |
| Sitemaps.Render | src/main/java/com/mandt/sitemap/Sitemap.java:151-158 | the document is the declaration, then `<urlset …>`, then every item's text in insertion order, then `</urlset>` |
| Sitemaps.RenderIgnoresLocation | src/main/java/com/mandt/sitemap/Sitemap.java:151-158 | the standalone document does not depend on location or date, so a missing location never matters there |
| Sitemaps.EmptyRender | src/main/java/com/mandt/sitemap/Sitemap.java:151-158 | a sitemap without items renders exactly the declaration, `<urlset …>` and `</urlset>` |
| Sitemaps.RenderForIndex | src/main/java/com/mandt/sitemap/Sitemap.java:165-177 | fails exactly when the location is missing; the failure is the argument error with the source's message, after only `<sitemap>` was written; otherwise writes `<sitemap>`, the `<loc>`, `<lastmod>` when a date is set, and `</sitemap>` |
| Sitemaps.RenderForIndexIgnoresItems | src/main/java/com/mandt/sitemap/Sitemap.java:165-177 | a sitemap's index entry never depends on its items |
| SitemapIndexes.Empty | src/main/java/com/mandt/sitemap/SitemapIndex.java:38-40 | a new index has no members |
| SitemapIndexes.Add | src/main/java/com/mandt/sitemap/SitemapIndex.java:47-49 | appends the sitemap after the earlier members, which keep their order; reports a change |
| SitemapIndexes.AddAll | src/main/java/com/mandt/sitemap/SitemapIndex.java:56-58 | appends the collection in order; reports a change exactly when it is non-empty |
| SitemapIndexes.AddAllIsRepeatedAdd | src/main/java/com/mandt/sitemap/SitemapIndex.java:47-58 | adding a collection at once equals adding its sitemaps one by one |
| SitemapIndexes.FirstUnlocated | src/main/java/com/mandt/sitemap/SitemapIndex.java:67-69 | the member that stops the loop has no location, and every member before it has one |
| SitemapIndexes.RenderEntries | src/main/java/com/mandt/sitemap/SitemapIndex.java:67-69 | the loop completes exactly when every member has a location, writing every entry in order; otherwise it stops at the first member without one, with the earlier entries and `<sitemap>` written |
| SitemapIndexes.Render | src/main/java/com/mandt/sitemap/SitemapIndex.java:64-71 | succeeds exactly when every member has a location, and then writes the declaration, `<sitemapindex …>`, every entry in insertion order and `</sitemapindex>`; otherwise fails with the argument error, `</sitemapindex>` is never written, and the text is the header, the earlier members' entries and `<sitemap>` |
| SitemapIndexes.EmptyRender | src/main/java/com/mandt/sitemap/SitemapIndex.java:64-71 | an empty index renders exactly the declaration, `<sitemapindex …>` and `</sitemapindex>` |
| Readback.ReadLastmod | src/main/java/com/mandt/sitemap/Item.java:115-118 | the `<lastmod>` element is present exactly when a date is set, and its body reads back as that date |
| Readback.ReadChangefreq | src/main/java/com/mandt/sitemap/Item.java:119-121 | the `<changefreq>` element is present exactly when a frequency is set, and its body is that variant's name |
| Readback.ReadPriority | src/main/java/com/mandt/sitemap/Item.java:122-124 | the `<priority>` element is present exactly when the priority differs from 0.5, and its body is the priority's text |
| Readback.UrlRoundTrip | src/main/java/com/mandt/sitemap/Item.java:112-126 | an item's text reads back as its location (verbatim), date, frequency and non-default priority, in that element order, each at most once |
| Readback.UrlsRoundTrip | src/main/java/com/mandt/sitemap/Sitemap.java:154-157 | the items' texts followed by `</urlset>` read back as the items' fields, in insertion order |
| Readback.SitemapRoundTrip | src/main/java/com/mandt/sitemap/Sitemap.java:151-158 | a standalone document reads back as the fields of its items, in order |
| IndexReadback.EntryRoundTrip | src/main/java/com/mandt/sitemap/Sitemap.java:172-176 | an index entry reads back as the sitemap's location and date |
| IndexReadback.EntriesRoundTrip | src/main/java/com/mandt/sitemap/SitemapIndex.java:67-70 | the entries followed by `</sitemapindex>` read back as the members' locations and dates, in order |
| IndexReadback.IndexRoundTrip | src/main/java/com/mandt/sitemap/SitemapIndex.java:64-71 | an index whose members all have locations renders completely and reads back as each member's location and date, in order |
| IndexReadback.AbortedIndexIsIncomplete | src/main/java/com/mandt/sitemap/SitemapIndex.java:64-71 | when a member has no location the render fails, and what was written is not a readable index document |
| Fixtures.SupnigText | src/test/java/com/mandt/sitemap/SitemapTest.java:27-31 | an item with an explicit priority 0.5 renders without a `<priority>` element |
| Fixtures.GoogleText | src/test/java/com/mandt/sitemap/SitemapTest.java:33-38 | an item given priority 2.0 renders with `<priority>1.0</priority>` |
| Fixtures.StandaloneSitemapDocument | src/test/java/com/mandt/sitemap/SitemapTest.java:21-47 | the three-item test sitemap renders as the exact expected document |
| IndexFixtures.IndexDocument | src/test/java/com/mandt/sitemap/SitemapTest.java:54-82 | the two-sitemap test index renders as the exact expected document, without any items |
| IndexFixtures.MissingLocationAborts | src/test/java/com/mandt/sitemap/SitemapTest.java:88-113 | an index whose only sitemap has no location fails with the argument error after writing the header and `<sitemap>` |

## Left out

- Locations: `java.net.URI` parsing and the constructors that throw
  `URISyntaxException` are not modelled. A location is a `Uri`: text that
  contains no `<` or `>`, which a parsed URI's string form never does. It is
  written verbatim. The code does not escape `&`, and neither does the model.
  This disagrees with the protocol's rule that URLs be entity-escaped; the
  model follows the code.
- Dates: a `java.util.Date` is an instant. The conversion to a calendar day
  depends on the default time zone of `SimpleDateFormat`, and it is not
  modelled. `SimpleDateFormat("yyyy-MM-dd")` (Item.java:40-41,
  Sitemap.java:51-52) also follows the default locale, which picks the
  calendar system (a Buddhist or Japanese-era year under some locales) and
  the digit characters. The model assumes the Gregorian calendar and ASCII
  digits `0`..`9`. A date is a (year, month, day) triple with month 1..12 and day
  1..31; the exact number of days in each month is not checked.
- Dates: the test instant 498844800000 ms is 1985-10-22 in UTC, so the
  fixtures use that day directly.
- Dates.Format: only years 0001..9999 have the fixed ten-character form. Years
  of five or more digits are written in full, as `SimpleDateFormat` does.
  Eras and negative years are not modelled.
- Priorities: the source stores a `float`. The model uses an exact `real`, so
  rounding and NaN are not modelled. A NaN given to the setter would pass both
  comparisons and be stored; the model has no NaN.
- Priority text: the float-to-string conversion is the parameter `show`. The
  fixtures only assume that 1.0 is written as `1.0`. The round-trip lemmas
  only assume that `show` never produces `<`.
- `IOException`: a write never fails.
- Aliasing: records are values here, and the source's containers hold
  references.
  - A sitemap added to an index is taken as its value when added. The index
    holds a reference, so later changes to that sitemap show up in the
    index's output.
  - An item added with `Sitemap.add` or `addAll` (Sitemap.java:132-144) is
    taken as its value too. The sitemap keeps the `Item` reference, so later
    `setLastmod`, `setModificationFrequency` or `setPrority` calls on that item
    change the sitemap's output.
  - `setLastmod` and `setLastModification` (Item.java:78-80,
    Sitemap.java:122-124) keep the caller's mutable `java.util.Date`. Changing
    that object afterwards changes the date rendered; here the day is fixed
    when it is set.
- Null values: a null item or null sitemap in a collection is not modelled.
  In the source, rendering one throws a `NullPointerException`. Two more
  null inputs are not modelled either:
  - An item built with a null URI (Item.java:71-73). The source stores it
    unchecked and renders `<loc>null</loc>` (Item.java:114). `Items.New`
    takes a `Uri`, so such an item cannot be built here.
  - A null collection passed to `addAll` (Sitemap.java:142-144,
    SitemapIndex.java:56-58). `Vector.addAll` throws a
    `NullPointerException`. `AddAll` takes a sequence, which is never null.
- `Vector` synchronisation: concurrency is not modelled.
- The test helper `CompareUtil.java` and the expected-output files are not
  part of this model. The expected documents in `Fixtures` are written from
  the renderers' code.
