# Piracy incident analysis: a Dafny model of its core

This project models, in Dafny, the three pieces of the piracy-incident analysis scripts that
carry real logic, and proves properties of each:

- **Wave-height join** (`3_wave_height_analysis.py`), module `WaveHeight` in `wave_height.dfy`.
  Each incident is looked up in the gridded wave product:
  - a box of +-0.05 degree latitude and longitude and +-30 minutes is built around the incident;
  - the box is cut out of the grid by closed label slices;
  - the VHM0 values at the first selected time and first selected latitude are returned.

  The driver keeps only the rows that have coordinates and receive a value.
- **Vessel registry** (`piracy_classes.py`, and its earlier copy `Deprecated/piracy_classes.py`),
  module `Registry` in `registry.dfy`. CSV rows are grouped by ship name into `Vessel` objects.
  Each vessel holds one `Incident` per incident date. The module also covers `Vessel.__str__`,
  `num_incidents`, `get_incidents` (deprecated copy only) and `dms_to_decimal`. The two files
  contain the same `Vessel`, `build_vessel_dict` and `dms_to_decimal` code, so this module
  models both.
- **Match post-processing** (`spacy_model.py`), module `SpacyModel` in `spacy_model.dfy`:
  - which pattern is registered under which label;
  - the reduction of matches and spans to 0/1 flags;
  - the writes into the incident data frame;
  - the HTML rendering that highlights matched tokens.

  The spaCy engine is a parameter. A matcher is a function from a document, given as its token
  texts, to `(label, start, end)` triples. A trained pipeline is a function from a text to the
  labels of its `sc` spans.

`common.dfy` (module `Common`) holds the shared pieces:
- `Option` and `Result`;
- the Python exceptions that can escape;
- `%d` formatting;
- `str.join`.

Mutable objects are classes: `Registry.Vessel` and `SpacyModel.Frame`, the pandas data frame
with its row index and its columns. Loops of the source are methods with loop invariants, each
proved against a specification function.

### What the lookup returns and when it raises

- **An empty window raises.** `subset['VHM0'].values[0][0]` raises `IndexError` when the time
  or the latitude selection is empty (`3_wave_height_analysis.py:90`). This includes every
  incident dated more than 30 minutes after the last grid time: only the start date is checked
  (line 67), and the time window reaches back only 30 minutes (lines 79-81).
  `DataFrame.apply` does not catch the error (line 126), so the script stops.
  - `WaveHeight.GetWaveHeight` returns `Err(IndexError)` in that case.
  - `WaveHeight.AfterHorizonRaises` shows it for incidents more than 30 minutes after the last
    grid time.
  - `WaveHeight.EnrichIncidents` shows that one such row makes the whole driver fail.
  - `DS_end_date` (line 123) is never used.
- **A frame with no coordinates raises.** When `dropna` (line 105) leaves no row, `apply` at
  line 126 does not go row by row. pandas first tries `get_wave_height` on an all-NaN probe
  row, whose comparison at line 67 fails. It then hands back a copy of the empty frame, and
  assigning that frame to the single column "Wave Height" raises `ValueError`.
  `WaveHeight.EnrichIncidents` returns `Err(ValueError)` in that case.
- **The value is a row, not a scalar.** The array is three-dimensional (time, latitude,
  longitude), so `values[0][0]` is one-dimensional. It holds VHM0 over every selected
  longitude, at the first selected time and the first selected latitude. The model returns that
  row. An empty longitude selection gives an empty row, not an error. `notna()` treats an array
  cell as present, so such a row is kept.

## Model

| member | source | states |
|---|---|---|
| WaveHeight.WindowAround | 3_wave_height_analysis.py:75-81 | the window holds the incident; each side lies exactly the buffer away from it (30 minutes, 0.05 degree) |
| WaveHeight.Select | 3_wave_height_analysis.py:85-88 | a label slice keeps a position iff its label lies in the closed bounds; positions come in axis order and lie inside the axis |
| WaveHeight.SelectWindow | 3_wave_height_analysis.py:85-88 | the three slices select exactly the times, latitudes and longitudes inside the window, each in grid order |
| WaveHeight.CellSelectedIff | 3_wave_height_analysis.py:85-88 | a grid cell is in the subset iff all three of its coordinates lie in the closed window |
| WaveHeight.GetWaveHeight | 3_wave_height_analysis.py:66-90 | None iff the incident precedes the dataset start; otherwise IndexError iff no grid time or no grid latitude lies in the window; IndexError is the only error |
| WaveHeight.BeforeStartNeverIndexes | 3_wave_height_analysis.py:67 | an incident before the start date gives None whatever the grid holds |
| WaveHeight.AfterHorizonRaises | 3_wave_height_analysis.py:67-90 | with no upper date guard, an incident more than 30 minutes after the last grid time raises IndexError |
| WaveHeight.FirstCellInGridOrder | 3_wave_height_analysis.py:85-90 | "first wins": the returned row starts with VHM0 at the earliest time, latitude and longitude inside the window |
| WaveHeight.ReturnedHeightsAreWindowCells | 3_wave_height_analysis.py:85-90 | each returned value is VHM0 at a window cell: first selected time, first selected latitude, one per selected longitude in order |
| WaveHeight.BoundaryIsInclusive | 3_wave_height_analysis.py:85-88 | a cell exactly 30 minutes and 0.05 degree away is still selected |
| WaveHeight.KeptIndices | 3_wave_height_analysis.py:129 | lists, in order, exactly the rows that have coordinates and a non-NA wave height |
| WaveHeight.ApplyAndFilter | 3_wave_height_analysis.py:105-129 | fails iff some row with coordinates makes the lookup raise, with the first such row's error; otherwise the output is the kept rows in order, each with its wave height |
| WaveHeight.EnrichIncidents | 3_wave_height_analysis.py:105-129 | the driver with get_wave_height as the lookup: ValueError when no row holds both coordinates; otherwise the same result as the row pass, with IndexError the only error |
| WaveHeight.KeptIff | 3_wave_height_analysis.py:105-129 | a row reaches the output iff it has both coordinates, is dated on or after the start, and its window holds a grid time and a grid latitude |
| Common.DecimalStringRoundTrip | piracy_classes.py:103 | the `%d` digits read back as the count |
| Common.DecimalString | piracy_classes.py:103 | `%d` of a count is a non-empty run of decimal digits with no leading zero except for 0 itself |
| Common.Join | spacy_model.py:202 | joining no parts gives the empty text; joining one part gives that part, with no separator |
| Common.JoinLength | spacy_model.py:202 | the length of `' '.join(parts)` is the total length of the parts plus one separator between neighbours |
| Common.JoinParts | spacy_model.py:202 | every part appears in the joined text, in order, at its offset: the lengths of the parts before it plus one separator for each |
| Common.JoinSeparators | spacy_model.py:202 | exactly the separator follows every part but the last |
| Registry.MakeIncident | piracy_classes.py:76-83 | the incident has a coordinate iff both lat and lon are non-empty, and then it is exactly (lat, lon); every other field is passed through unchanged |
| Registry.Vessel.constructor | piracy_classes.py:62-66 | name, flag and type as given; no incidents |
| Registry.Vessel.AddInc | piracy_classes.py:68-83 | the incidents map gains or replaces exactly the entry for the date; name, flag and type are unchanged |
| Registry.Vessel.NumIncidents | piracy_classes.py:86-88 | the number of distinct dates stored |
| Registry.Vessel.GetIncidents | Deprecated/piracy_classes.py:92-94 | the stored incidents, the same keys and the same values |
| Registry.Header | piracy_classes.py:91-101 | the text starts with `name(`; it is exactly `(` iff the name is empty; a named vessel with a flag ends with `,flag=` and the flag |
| Registry.Describe | piracy_classes.py:90-105 | the text starts with `name(` and ends with ` incidents)` |
| Registry.DescribeNamed | Deprecated/piracy_classes.py:96-111 | a vessel with a name, a type and a flag prints `name(name='name',type=T,flag=F,N incidents)` |
| Registry.DescribeEmptyFlagOmitted | Deprecated/piracy_classes.py:106-107 | a named vessel with an empty flag prints its name and type followed directly by the count, with no `flag=` entry |
| Registry.Vessel.Str | piracy_classes.py:90-105 | the text built step by step equals the layout `Describe` for the vessel's fields and incident count |
| Registry.DescribeNameless | piracy_classes.py:93-103 | a vessel without a name prints only `(,N incidents)` |
| Registry.DescribeEmptyTypeIsNone | Deprecated/piracy_classes.py:101-104 | an empty type prints exactly like the type `None` |
| Registry.CountSuffixAfterComma | piracy_classes.py:103-104 | a digit run between a comma and ` incidents)` is read back as its value |
| Registry.DescribeCountRecoverable | piracy_classes.py:103-104 | the incident count can always be read back from the end of the text |
| Registry.DmsToDecimal | piracy_classes.py:254-260 | the result `r` satisfies `(r - degrees) * 3600 == minutes * 60 + seconds` |
| Registry.DmsToDecimalRoundTrip | Deprecated/piracy_classes.py:187-193 | for whole degrees of either sign, whole minutes and seconds below 60, the degree, minute and second parts can be read back exactly |
| Registry.IncidentsOfKeys | piracy_classes.py:238-242 | a vessel's incident dates are exactly the dates of its own rows |
| Registry.LastIncidentWins | Deprecated/piracy_classes.py:84-85 | when two rows of one ship share a date, the later row's incident is the one stored |
| Registry.IncidentsOfOtherDates | piracy_classes.py:238-242 | a row adds nothing under another ship or under another date |
| Registry.IncidentsOfAbsent | piracy_classes.py:238-239 | a ship with no rows has no incidents |
| Registry.AddRow | piracy_classes.py:237-242 | one pass of the loop: the row's ship gets a new Vessel when its name is first seen, and after the row's incident is added the dictionary describes the first i + 1 rows |
| Registry.BuildVesselDict | piracy_classes.py:204-249 | one fresh, distinct Vessel per ship name; flag and type come from the name's first row; incidents come from all its rows; linecount equals the number of data rows |
| SpacyModel.Registrations | spacy_model.py:89-96 | exactly four labels are registered, and BOARDED has twenty patterns |
| SpacyModel.SubLabelsRegisteredUnderBoarded | spacy_model.py:89-95 | every pattern registered under HIJACKED or HOSTAGES_TAKEN is also registered under BOARDED |
| SpacyModel.SubLabelImpliesBoarded | spacy_model.py:89-95 | whatever the engine finds, a HIJACKED or HOSTAGES_TAKEN hit comes with a BOARDED hit |
| SpacyModel.CrewAssaultIsSeparate | spacy_model.py:86-96 | the crew-assault pattern is registered under CREW_ASSAULTED and not under BOARDED, so it fires the one and not the other |
| SpacyModel.Style | spacy_model.py:174-182 | the blob is the text between `<text>` and `</text>`, inside the highlighting `<b>` tag and `</b>` iff bold; its length is the text's plus the tags' |
| SpacyModel.StyleRoundTrip | spacy_model.py:174-182 | `style` keeps both the text and the boldness: both can be read back from the blob |
| SpacyModel.StyleInjective | spacy_model.py:174-182 | different (text, bold) pairs give different blobs |
| SpacyModel.CoveredMonotone | spacy_model.py:199-201 | adding matches never clears a mark |
| SpacyModel.MarkTokens | spacy_model.py:198-201 | token i is marked iff some match has start <= i < end |
| SpacyModel.BlockIsPlainText | spacy_model.py:202 | each document's block is a plain `<text>` blob whose content is the joined tokens followed by `<br>` |
| SpacyModel.PageReadsOnlyPrefix | spacy_model.py:194-203 | the page depends only on the first n documents |
| SpacyModel.HtmlGenerator | spacy_model.py:185-203 | StopIteration iff fewer than n documents remain, with the generator then drained; otherwise one block per document for exactly n documents, in order, and the generator left at the documents after them; the inner loop's reuse of `i` does not change the count |
| SpacyModel.LabelFlags | spacy_model.py:134-146 | each flag is 1 iff some span carries its label, and 0 otherwise |
| SpacyModel.ApplyNlp | spacy_model.py:125-146 | the loop over the spans computes exactly these flags |
| SpacyModel.FlagsIgnoreOrder | spacy_model.py:136-144 | the flags depend only on which labels occur, not on span order or repeats |
| SpacyModel.OtherLabelsIgnored | spacy_model.py:136-144 | spans with any other label change no flag |
| SpacyModel.FlagsAreBinary | spacy_model.py:134-146 | every flag is 0 or 1 |
| SpacyModel.EnlargedRows | spacy_model.py:116-117 | `.at` writes keep the old rows at their positions, add exactly the missing labels 0..n-1, and keep labels distinct |
| SpacyModel.MatchLabels | spacy_model.py:113 | `matches_str` lists the label of every match, one per match, in match order |
| SpacyModel.WrittenColumn | spacy_model.py:110-120 | rows 0..n-1 of the BOARDED or HIJACKED column hold each document's 0/1 flag, and the column is unchanged elsewhere |
| SpacyModel.WrittenOthers | spacy_model.py:110-120 | no column other than BOARDED and HIJACKED is written |
| SpacyModel.WrittenCells | spacy_model.py:110-120 | row ix of BOARDED and of HIJACKED is 1 iff that label occurs among doc ix's matches, and 0 otherwise; other rows and all other columns, HOSTAGES_TAKEN and CREW_ASSAULTED included, are unchanged |
| SpacyModel.Frame.SetCell | spacy_model.py:116-117 | `.at[row, col] = v` sets exactly that cell, creating the column or appending the row label when missing |
| SpacyModel.Frame.CustomMatcher | spacy_model.py:102-122 | the frame after the loop has the enlarged index and the written columns; the frame invariant holds |
| SpacyModel.ApplyToColumn | spacy_model.py:159 | raises ValueError iff some row's cell is not text; otherwise gives each row's flag tuple |
| SpacyModel.InputError | spacy_model.py:159 | no error iff the column exists and every row holds text |
| SpacyModel.Frame.ModelInterpreter | spacy_model.py:149-171 | KeyError for a missing column and ValueError for a non-text row, with the frame unchanged; otherwise the frame becomes the interpreted columns and stays valid |
| SpacyModel.SplitResult | spacy_model.py:162-165 | `np.where(RESULT.str[k] == 1, 1, 0)` copies component k of each row's tuple |
| SpacyModel.InterpretedLabelColumns | spacy_model.py:159-168 | after `model_interpreter` the four label columns are the four splits of RESULT, and RESULT is gone |
| SpacyModel.InterpretedColumns | spacy_model.py:159-168 | the four label columns hold each row's four tuple components; RESULT is removed |
| SpacyModel.InterpretedKeepsOtherColumns | spacy_model.py:159-168 | no column other than RESULT and the four label columns changes |
| SpacyModel.InterpretedInIndex | spacy_model.py:159-168 | every written cell belongs to a row of the index |

## Left out

- `Coord.dist_to`, `deg2rad` and `rad2nm` (all three files): floating-point trigonometry. Also,
  the unbound calls at `piracy_classes.py:29` and `Deprecated/piracy_classes.py:31` pass the
  wrong number of arguments. `Coord` is kept only as the two coordinate texts of a row.
- `Coord.__str__`, `Coord.__repr__` and `Incident.__str__`: `%f` and f-string formatting of
  floats.
- Opening the remote dataset (credentials, network), reading and writing CSV files, `print`
  calls, `pd.to_datetime`, `strptime` and `float()` parsing. These are I/O or library parsing.
  Dates arrive already parsed, and times are whole minutes.
- The pattern contents and matching semantics of `generate_matcher` (LEMMA, POS, FUZZY, OP,
  IS_SENT_START). This is the spaCy engine. Patterns are kept only as names, under the label
  they are registered with.
- `Copernicus_Final.py`: an earlier copy of the wave-height script. It is not valid Python
  (IPython magic at line 11) and calls an undefined `Coord`.
- `Copernicus_Spyder.py`: a one-off, top-level exploration that selects the grid around a single
  event. It has no `get_wave_height` and is not valid Python either (IPython magic at line 9).
- `piracy_main.py` is not part of this model.
- VMDR and VCMX are selected at `3_wave_height_analysis.py:85` but never read, so they are not
  carried.
- WaveHeight.GetWaveHeight: the deltas use exact real arithmetic, not binary floating point.
  Timestamps are integers, not pandas Timestamps. Comparing a Timestamp with the
  `datetime.date` at line 67 is version-dependent in pandas and may raise. Axes are taken as
  ascending, which is where a label slice is a positional filter.
- WaveHeight.KeptIff, WaveHeight.FirstCellInGridOrder and WaveHeight.ReturnedHeightsAreWindowCells
  describe the script only on grids whose time, latitude and longitude labels ascend. On a
  descending axis xarray's `slice(low, high)` selects nothing, so line 90 raises `IndexError`,
  while the model's label filter still selects the cells inside the window.
- WaveHeight.ApplyAndFilter: `dropna`, `apply` and the `notna()` filter are fused into one row
  pass. When at least one row holds both coordinates, interleaving them per row computes the
  same frame, because each step looks at its row alone. The rows' original index labels are not
  kept. On a frame where no row holds both coordinates, pandas' `apply` does not go row by row
  and its outcome depends on the function; this generic pass returns no rows there, and only
  `WaveHeight.EnrichIncidents` models that case (as `ValueError`, for `get_wave_height`).
- Registry.DmsToDecimal: exact rational arithmetic. Python's floating-point rounding is not
  modelled.
- Registry.Vessel.AddInc: the `ValueError` that `strptime` raises for a date not in `%m/%d/%Y`
  (`piracy_classes.py:74`) is not modelled, nor the `ValueError` that `float()` in `Coord(lat, lon)`
  raises for a non-numeric coordinate text (lines 23-24, 79). Either aborts `build_vessel_dict`.
  The model takes dates already parsed and keeps coordinates as their texts.
- Registry.BuildVesselDict: rows arrive parsed, with all 16 fields. The `IndexError` a short CSV
  line would raise is not modelled, nor is the header skip.
- Registry.Vessel.GetIncidents: returns the dictionary's value. The alias to the live dict,
  through which a caller could mutate the vessel, is not modelled.
- SpacyModel.MarkTokens and SpacyModel.HtmlGenerator require every match span to lie inside its
  document (0 <= start <= end <= length). spaCy guarantees this for its matches.
- SpacyModel.Frame.CustomMatcher, SpacyModel.Frame.SetCell and SpacyModel.Frame.ModelInterpreter:
  frames with duplicate row labels are not modelled, because `Frame.Valid` requires distinct
  labels. On such a frame pandas' `.at[ix, col]` addresses every row carrying the label `ix`.
- SpacyModel.Frame.CustomMatcher: the 0-d numpy array that `np.where` yields is stored as a
  plain integer cell. Column dtype changes (int to float when NaN appears) are not modelled.
- SpacyModel.ApplyToColumn and SpacyModel.InputError: the trained pipeline is assumed never to
  fail on text. spaCy's `nlp(text)` raising `ValueError` for a text longer than
  `nlp.max_length`, and `doc.spans['sc']` (`spacy_model.py:136`) raising `KeyError` when the
  pipeline sets no `sc` group, are not modelled. The "no error iff every row holds text" of `ApplyToColumn` and `InputError` rests on
  that assumption.
- SpacyModel.Frame.ModelInterpreter: every non-text cell makes the pipeline raise ValueError.
  The exact exception spaCy raises for other object types is not modelled.
