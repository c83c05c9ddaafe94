# Spottable: the clean-and-filter pipeline

Spottable is a Streamlit page. It reads a table of places ("spots") and shows
them on a map and as cards. This project models the part of `app.py` that
turns the table into the rows the page shows (lines 58-96). Those steps are:

- normalise the headers (trim, then lower-case);
- find the latitude, longitude, name, address, link and tags columns;
- read each coordinate cell as a number after its decimal commas become points;
- drop the rows missing a coordinate;
- keep the rows whose name contains the search text, in any letter case;
- collect the sorted, duplicate-free set of tags;
- keep the tags whose toggles are on, in tag order;
- keep the rows carrying at least one selected tag.

The failure is modelled too. Without a latitude or a longitude column,
`dropna` raises, and lines 137-138 show the error message instead of the page.

Modules, in dependency order:

- `Wrappers`: `Option` and `Result`.
- `Text`: the Python `str` operations the pipeline uses: `strip`, `lower`, `replace`, `split` and the substring test.
- `Seqs`: the order-preserving boolean mask `df[mask]` as `Filter`, and `Flatten`.
- `Order`: Python's string ordering, and `sorted(set(...))`.
- `Schema`: header normalisation and the first-match column lookups.
- `Coordinates`: one cell read as a coordinate, and the `dropna` on a whole table.
- `Frames`: the data frame `df` as a class, whose methods carry out the in-place changes of lines 59, 67-68 and 71.
- `Filters`: the search, the tag universe, the toggle loop and the tag filter.
- `Pipeline`: the run from headers and rows to the view or the error.
- `Examples`: worked cases on concrete values.

The number parser is a parameter of type `string -> Option<real>`. The query
and the set of toggles that are on are parameters too.

## Model

| member | source | states |
|---|---|---|
| Text.Strip | app.py:59 | the result is a slice of the input that neither starts nor ends with whitespace, with only whitespace on either side of it |
| Text.StripUnique | app.py:59 | at most one string has that property, so `Strip` is Python's `strip()` and nothing else |
| Text.StripIgnoresPadding | app.py:59 | whitespace added around a string does not change what it strips to |
| Text.StripTrimmed | app.py:88 | a string with no whitespace at either end strips to itself |
| Text.Lower | app.py:59 | lower-casing keeps the length, turns each ASCII letter `A`-`Z` into its lower-case counterpart, and keeps every other character in place |
| Text.LowerIdempotent | app.py:59 | lower-casing twice is lower-casing once |
| Text.LowerStripCommute | app.py:59 | trimming then lower-casing equals lower-casing then trimming |
| Text.StripKeepsOut | app.py:88 | stripping only removes characters, so a character absent from a string is absent from its strip |
| Text.ReplaceChar | app.py:67-68 | every occurrence of the target character is replaced, every other character is kept in place, and no target is left |
| Text.Contains | app.py:83 | the substring test holds exactly when the needle occurs at some offset of the haystack |
| Text.ContainsTransitive | app.py:83 | a string containing a second one contains everything the second contains |
| Text.Split | app.py:88 | splitting on `,` gives at least one part, no part holds a comma, and joining the parts with commas gives back the text |
| Text.SplitJoin | app.py:88 | splitting the comma-join of comma-free parts gives back exactly those parts |
| Text.SplitCount | app.py:88 | splitting on `,` gives one more part than there are commas |
| Text.SplitNoSeparator | app.py:88 | a text without a comma splits into itself alone |
| Seqs.Filter | app.py:71 | a mask keeps exactly the elements that satisfy it, in order, never more than it was given |
| Seqs.FilterAppend | app.py:83 | masking a concatenation is concatenating the masked parts |
| Seqs.FilterKeepsAll | app.py:83 | a mask true everywhere keeps the sequence unchanged, as the `df.copy()` branch does |
| Seqs.FilterConjunction | app.py:83-96 | masking by one predicate and then by another is masking once by their conjunction |
| Seqs.FilterCommute | app.py:83-96 | two masks can be applied in either order |
| Seqs.FilterIdempotent | app.py:83-96 | applying a mask a second time changes nothing |
| Seqs.FlattenMembers | app.py:88 | an element is in the concatenation exactly when it is in one of the parts |
| Order.LessIrreflexive | app.py:88 | no string sorts before itself |
| Order.LessTransitive | app.py:88 | string order is transitive |
| Order.LessTotal | app.py:88 | of two different strings, one sorts before the other |
| Order.LessAsymmetric | app.py:88 | two strings never sort before each other |
| Order.StrictlySortedDistinct | app.py:88 | a strictly sorted sequence holds no duplicate |
| Order.Insert | app.py:88 | inserting into a strictly sorted sequence keeps it strictly sorted and adds exactly the new element |
| Order.SortedSet | app.py:88 | `sorted(set(xs))` is strictly sorted and holds exactly the elements of `xs` |
| Order.SortedListingUnique | app.py:88 | two strictly sorted sequences with the same elements are equal |
| Order.FilterStrictlySorted | app.py:90-94 | masking a strictly sorted sequence leaves it strictly sorted |
| Schema.NormalizeHeader | app.py:59 | a normalised header has no upper-case letter and no whitespace at either end |
| Schema.NormalizeIgnoresPadding | app.py:59 | headers that differ only by surrounding whitespace normalise alike |
| Schema.NormalizeIgnoresCase | app.py:59 | headers that differ only in letter case normalise alike |
| Schema.NormalizeIdempotent | app.py:59 | normalising a normalised header changes nothing |
| Schema.FirstMatch | app.py:62-63 | the lookup gives the first column whose header the rule accepts, and nothing exactly when no header is accepted |
| Schema.FirstMatchOr | app.py:73-74 | the lookup gives the first accepted column, or the eagerly evaluated default column when none is accepted |
| Schema.FirstMatchIgnoresAppended | app.py:73-76 | columns appended at the end that the rule rejects do not change the lookup |
| Schema.ResolveColumns | app.py:62-76 | resolution fails exactly when no latitude or no longitude header exists; otherwise every column is the first its rule accepts, name and address fall back to columns 0 and 1, and link and tags are absent exactly when nothing matches |
| Schema.AddedCoordinateColumnsUnseen | app.py:67-76 | the `lat` and `lon` columns added at lines 67-68 change none of the name, address, link and tags lookups |
| Schema.CoordinateHeaderUnmatched | app.py:73-76 | the headers `lat` and `lon` are not taken for a name, address, link or tags column |
| Schema.ResolutionIgnoresCase | app.py:59-76 | tables whose headers differ only in letter case resolve to the same columns |
| Schema.ResolutionIgnoresPadding | app.py:59-76 | tables whose headers differ only by surrounding whitespace resolve to the same columns |
| Coordinates.CleanCoordinate | app.py:67-68 | a missing cell gives no coordinate |
| Coordinates.DecimalCommaReadAsPoint | app.py:67-68 | a cell written with decimal commas reads as the same cell written with points |
| Coordinates.ParserSeesNoComma | app.py:67-68 | the text handed to the parser is the cell with each comma turned into a point and every other character kept, so it holds no comma |
| Coordinates.LocaleDecimalExample | app.py:67-68 | `45,1234` is parsed as `45.1234` |
| Coordinates.Validate | app.py:71 | the validated rows are exactly the rows with both coordinates, in order and unchanged, each paired with its two cleaned coordinates |
| Frames.WithCoordinateColumns | app.py:67-68 | assigning `df['lat']` and `df['lon']` keeps the existing headers in place and leaves both present; a header already present is not added again, and a missing one is appended once, `lat` before `lon` |
| Frames.CleanColumnTail | app.py:67-68 | the cleaned column of a table is the first row's cleaned cell followed by the cleaned column of the remaining rows |
| Frames.KeepCompleteMembers | app.py:71 | `dropna` on the frame keeps exactly the rows whose two coordinates are present, each with those coordinates |
| Frames.KeepCompleteIsValidate | app.py:67-71 | dropping the incomplete rows of the freshly cleaned columns gives the validated rows |
| Frames.DataFrame.constructor | app.py:58 | the frame starts with the headers and rows as read, and no numeric coordinate columns |
| Frames.DataFrame.NormalizeColumns | app.py:59 | the headers become their normal forms; the rows are unchanged |
| Frames.DataFrame.AddCoordinates | app.py:67-68 | the frame gains the `lat` and `lon` headers and their cleaned columns; the rows are unchanged |
| Frames.DataFrame.DropMissingCoordinates | app.py:71 | without coordinate columns the call fails and changes nothing; otherwise the frame keeps exactly its complete rows with their coordinates |
| Filters.NameMatchesIgnoresCase | app.py:83 | queries that differ only in letter case find the same rows |
| Filters.NameMatchesNarrowing | app.py:83 | a row found by a query is found by every part of that query, so a longer query never finds more |
| Filters.Search | app.py:83 | an empty query keeps every row; otherwise exactly the rows whose name holds the query in any letter case are kept, in order, and each kept row has a name |
| Filters.TokensWellFormed | app.py:88 | a tags cell with `n` commas yields `n + 1` tags, each comma-free and with no whitespace at either end |
| Filters.AllTokensMembers | app.py:88 | a tag is collected exactly when some row's tags cell holds it |
| Filters.TagUniverse | app.py:88 | the universe is strictly sorted and holds exactly the tags of the present tags cells of the validated rows |
| Filters.TagUniverseIsTheListing | app.py:88 | any strictly sorted listing of those tags is the universe |
| Filters.UniverseCoversSearch | app.py:83-88 | whatever the query, every tag of a row the search keeps has a toggle |
| Filters.SelectTags | app.py:90-94 | the selection is the universe masked by the toggles, in universe order; it holds exactly the toggled tags of the universe, and it is strictly sorted when the universe is |
| Filters.TagMatchesUnion | app.py:96 | a row passes a union of selections exactly when it passes one of them, so toggling more tags never hides a row |
| Filters.TagMatchesNeedsCell | app.py:96 | a row with a missing tags cell matches no selection |
| Filters.TagStage | app.py:95-96 | without a tags column or a selection every row is kept; otherwise exactly the rows with a selected tag are kept, in order, and each has a tags cell |
| Filters.SearchThenTags | app.py:83-96 | the search followed by the tag filter is one order-preserving mask on both conditions |
| Filters.StagesCommute | app.py:83-96 | the search and the tag filter can be applied in either order |
| Filters.QueryIdempotent | app.py:83-96 | applying the same search and selection to their own result changes nothing |
| Pipeline.Load | app.py:58-76 | driving the frame fails exactly when a coordinate column is missing; otherwise it gives the resolved columns and the validated rows |
| Pipeline.LookupAfterCoordinates | app.py:73-76 | the lookups made after `lat` and `lon` were added find what they would find on the normalised headers alone |
| Pipeline.ApplyFilters | app.py:83-96 | the view holds the tag universe, the toggled tags in sorted order, and the rows that pass both the search and the tag filter |
| Pipeline.Run | app.py:58-96 | the run fails exactly when a coordinate column is missing; otherwise its view is the validated rows, the universe, the selection and the rows passing both filters |
| Pipeline.NoCoordinateColumnsNoSpots | app.py:62-71 | a table with no latitude header, or none for longitude, fails to resolve and meets the failure condition of `Pipeline.Run`, whatever its rows |
| Pipeline.NoLatitudeHeader | app.py:62 | when no header normalises to `latitude` or `lat`, no column is taken for the latitude |
| Pipeline.NoLongitudeHeader | app.py:63 | when no header normalises to `longitude` or `lon`, no column is taken for the longitude |
| Examples.OneTag | app.py:88 | a cell holding one trimmed tag with no comma yields just that tag |
| Examples.TagFilterIsOr | app.py:96 | a row tagged `beach` passes the selection `beach, lake`, and a row tagged `forest` does not |
| Examples.SearchIgnoresCase | app.py:83 | `grand` finds `Le Grand Café` |
| Examples.HeaderNormalisationExample | app.py:59 | the header ` Latitude ` normalises to `latitude` |

## Left out

- The page itself is not modelled: Streamlit widgets, CSS, layout, the map, the cards and the link buttons. These are lines 1-54, 79-81, 86, 89, 98-135 and the `st.toggle`/`st.text_input` calls. The search text and the set of toggles that are on become inputs.
- The map's centre at line 104 is a floating-point mean, so it is left out.
- Reading the CSV file with separator sniffing (line 58) is I/O. The header row and the data rows are inputs, and every cell is either text or missing.
- `pd.to_numeric(..., errors='coerce')` is a parameter: which texts it reads as numbers is not modelled.
- Coordinates.CleanCoordinate: a missing coordinate cell is read as missing directly. In the source, `astype(str)` first turns it into the text `nan`, and the parser then gives NaN. The outcome is the same when the parser reads `nan` as no number.
- Filters.Search: `str.contains` is treated as a literal substring test. The source passes the query as a regular expression, so a query holding metacharacters matches differently, and a malformed pattern such as `(` makes it raise and show the error message.
- Text.Lower: only ASCII letters are lower-cased. Python's Unicode case mapping is not modelled.
- Text.IsSpace: whitespace is Python's, restricted to the Latin-1 range.
- Pandas data types are not modelled. A non-text name column would make `.str` raise at line 83, but only for a non-empty query, because the conditional evaluates it only then. A numeric tags cell would be formatted by `str(val)` (for example `1.0`).
- Duplicate headers after normalisation are not modelled, nor any column that pandas would then select twice.
- Frames.DataFrame.AddCoordinates: pandas overwrites the cells of an existing `lat` or `lon` column with the parsed numbers. This happens when the coordinate column is itself called `lat` or `lon`, and also when a `lat` header follows a `latitude` header. The model keeps the text cells in the rows and the numbers in the separate `lat` and `lon` fields. So it does not capture that a name falling back to an overwritten column 0 makes a non-empty search raise.
- Pipeline.Run: when a tags column exists but no validated row has a tags cell (including when `dropna` leaves no rows), `st.columns(0)` at line 89 raises and the page shows the error of lines 137-138. That is Streamlit behaviour; the run then succeeds in the model with an empty universe.
- A data row shorter than the header row reads as missing past its end. Pandas pads such rows with NaN.
- The model does only what `app.py` does:
  - `app.py` takes no coordinates from link text;
  - it has no description column;
  - it keeps empty tag tokens, as in `a,,b`, in the universe, where they can be toggled;
  - it takes as link column any header containing `map`, `lien` or `geo`.
