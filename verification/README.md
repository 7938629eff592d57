# SWMF_QU data processor, modelled in Dafny

This project models the data-loading core of SWMF_QU, a study of the
uncertainty in solar-wind simulations. Its centre is the `DataProcessor`
object. A processor holds:

- a kind: observed data (`"obs"`) or simulated data (`"sim"`)
- a data directory
- default selector options
- flags for caching and verbosity

Calling a processor does five things:

1. It merges its stored options with the per-call ones.
2. It resolves the request to a file name. Observations live under
   `obsdata/`. A simulation file is found by matching regular expressions
   against directory listings: first the simulation directory, then
   `runNN/IH`, then the file.
3. It loads the table, through a 64-entry least-recently-used memo when
   caching is on.
4. It replaces the time-component columns by a time index. It also sets the
   negative entries of the four magnitude columns (`Rho`, `V_tot`,
   `Temperature`, `B_tot`) to NaN.
5. It returns the requested variables.

A processor can also enumerate the run numbers of a simulation directory,
sorted. The project also models `format_traj_res`, from the metrics
post-processing script. It flattens one trajectory's metrics record: the
nested `RMSEdict` is merged into a copy of the record, and the aggregate
`RMSE` entry is removed.

Files:

- `wrappers.dfy`:
  - `Option` and `Result`
  - `Errors.Error`, with one constructor per exception the source can end in
- `paths.dfy`:
  - `posixpath.join` and `expanduser`
  - the decimal rendering that f-strings use and the parsing that `int()` does
- `patterns.dfy`: the three regular expressions, modelled as predicates on
  names. In an interpolated selector, `.` is a wildcard that does not match a
  newline. `$` matches at the end of the name or before one final newline.
  A list comprehension followed by `[0]` takes the first match.
- `options.dfy`: keyword values, the option merge and the `:02` run-number
  format.
- `tables.dfy`: what the table steps mean on values. This covers the time
  consolidation of `format_time`, the `it` drop and the sanitising loop of
  `process_data`, and the selection `data[vars]`. `Frame` is the table object
  that is changed in place.
- `cache.dfy`: the memo, as a list from least to most recently used. The
  `LruCache` class updates it in place.
- `processor.dfy`:
  - the `DataProcessor` class and the file-name resolution
  - the parsing of run numbers
  - the in-place insertion sort that stands for `list.sort()`
- `metrics.dfy`: the `JsonDict` class for a mutable Python dict, and
  `format_traj_res` over it.

The machine is an input value, `Processor.FileSystem`. It holds:

- each directory's listing, in `os.listdir` order, with the subdirectories
  marked
- the table that `read_data` parses from each file
- the working directory
- the users' home directories

Some functions only define a Python primitive and carry no property of their
own: `Options.Lookup` is keyword-default binding, `Patterns.Compile` turns
selector text into regex atoms, `Patterns.Head` is `[0]` and
`Processor.EntryNames` is `os.listdir`. The lemmas about the functions that use
them state what they mean.

Each method that works in place is proved against a function on values:
`FormatTimeSpec`, `ProcessSpec`, `Load`, `CallSpec`, `RunNumsUnsorted` and
`Flattened`. The lemmas state what those functions promise.

## Model

| member | source | states |
|---|---|---|
| Options.Merge | utils.py:33-34 | The merged options have the keys of both. A per-call value overrides the stored one. Every other stored value is kept. |
| Options.LookupMerged | utils.py:33-34 | A keyword parameter of a `_get_*` method receives the per-call value when one is given, else the stored value, else its own default. |
| Options.FormatRunNum | utils.py:96 | `run_num:02` pads to width 2 and no further. A non-negative integer gives its decimal digits, with one `0` added exactly when it is below 10, and they read back as the number. A negative integer is rendered as it is. A string is kept as a prefix and right-filled with `0` up to width 2. |
| Paths.Join | utils.py:64 | `join(a, b)` ends with b. For a relative b it starts with a. It inserts exactly one `/` when a is non-empty and does not end in `/`, and nothing otherwise. An absolute b replaces a. |
| Paths.ExpandUser | utils.py:78 | A path that does not start with `~` is unchanged. A non-empty path stays non-empty. |
| Paths.ExpandUserHome | utils.py:78 | `~user` followed by nothing or by `/...` becomes that user's home with trailing slashes stripped, or `/` when nothing is left, followed by the rest. An unknown user leaves the path unchanged. |
| Paths.RStripSlashes | utils.py:78 | The result is the longest prefix that does not end in `/`. Only slashes are removed. |
| Paths.NatToDecimal | utils.py:63 | Rendering a natural number gives non-empty digits that read back as that number, with no leading zero. |
| Paths.IntToDecimal | utils.py:63 | `str()` of a negative integer is `-` followed by the digits of its absolute value, with no leading zero. A non-negative integer gives non-empty digits with no leading zero that read back as the number. |
| Paths.LeadingZero | utils.py:126 | `int()` reads the same number after a leading zero is added. |
| Patterns.Filter | utils.py:82 | The comprehension keeps only elements that pass the test, and it keeps every element that does. |
| Patterns.FilterHead | utils.py:82 | The filtered list is empty exactly when nothing passes. Otherwise its head is the first element that passes. |
| Patterns.FirstOf | utils.py:82 | `[...][0]` fails exactly when nothing passes. Otherwise it gives the first element that passes. |
| Patterns.DirMatchIsContainment | utils.py:80-82 | On a name with no newline, the directory pattern matches wherever its text occurs. When the text has no `.`, it matches only there. |
| Patterns.ParamDotIsWildcard | utils.py:80-81 | The `.` in `0.35e6` is a wildcard: a name with `0135e6` in its place also matches. |
| Patterns.FileMatchIsPrefixSuffix | utils.py:97-99 | On a name with no newline, and selectors with no `.`, the file pattern matches exactly when the name starts with `{type}_{location}_` and ends with `.{ext}`, and the two do not overlap. |
| Patterns.TrailingDigits | utils.py:125 | `\d+` takes the longest run of digits at the end of the name. |
| Patterns.RunNumberOfRunDigits | utils.py:124-126 | About `RunNumberOf` (`get_run_num`, utils.py:124-126): a name ending in `run` and digits yields the value of those digits, whatever comes before. |
| Patterns.RunNumberOfRunDigitsNewline | utils.py:124-126 | `$` also matches before one final newline, so such a name yields the same number. |
| Patterns.RunNumberOnlyOfRunDigits | utils.py:124-126 | The converse: a name yields a run number only when it is some text, `run` and decimal digits, possibly followed by one newline, and the number is the value of those digits. Every other name (`abc12`, `12`) makes `get_run_num` fail. |
| Patterns.TrailingDigitsOfSuffix | utils.py:125 | After a non-digit, the trailing digit run is exactly the appended digits. |
| Processor.SubdirNames | utils.py:78 | `next(os.walk(p))[1]` lists only directory entries of p, and lists every one of them. |
| Processor.SubdirNamesInOrder | utils.py:78 | The subdirectory names are the names of the directory entries, in listing order. |
| Processor.ObsFilenameLayout | utils.py:53-66 | About `ObsFilename` (`_get_obs_filename`, utils.py:53-66): the observation file is `{dir}/obsdata/{source}_{time}.out`. The working directory stands in for a missing dir, and `earth` is observed by `omni`. |
| Processor.SimDirFirstMatch | utils.py:69-85 | About `SimDir` (`_get_sim_dir`, utils.py:69-85): the simulation directory is the first listed subdirectory whose name matches the selector pattern. The lookup fails with NoMatch exactly when no subdirectory matches. |
| Processor.SimFilenameFirstMatch | utils.py:87-102 | About `SimFilename` (`_get_sim_filename`, utils.py:87-102): once the simulation directory is resolved and its run directory exists, the simulation file is the first entry of `{sim_dir}/run{NN}/IH` that matches the file pattern. The lookup fails with NoMatch exactly when no entry matches. |
| Processor.RunDirNameRoundTrip | utils.py:96 | The run directory of run n is `run` followed by n padded to two digits. `get_run_num` reads n back from that name. |
| Processor.ParseEach | utils.py:130 | A successful parse gives one number per name. |
| Processor.ParseEachMeaning | utils.py:124-130 | Parsing succeeds exactly when every name carries a run number, and it then gives each name's number in order. A failure names a directory that has no run number. |
| Processor.SortedDistinctIsStrict | utils.py:129-131 | A sorted permutation of distinct run numbers is strictly ascending. |
| Processor.RunNumbersMayRepeat | utils.py:124-131 | `runN` and `run0N` are distinct names that carry the same number, so the sorted list can repeat a number. |
| Processor.SortInPlace | utils.py:131 | `list.sort()` leaves the array sorted, and the result is a permutation of its old contents. |
| Processor.InsertLast | utils.py:131 | One insertion step extends the sorted prefix by one element, permutes the array and leaves the elements after it in place. |
| Processor.Inserted | utils.py:131 | Moving the element down into the gap sorts the prefix and permutes the sequence. |
| Processor.DataProcessor.constructor | utils.py:13-24 | The constructor stores the kind, the directory, the flags and the options, with an empty memo of capacity 64. |
| Processor.DataProcessor.CacheTransparent | utils.py:203-208 | While the files do not change, a remembered table is what loading its file gives now. The memo stays that way after a hit and after a fresh load is stored. |
| Processor.DataProcessor.ReadData | utils.py:104-116 | The result is a new frame holding the table parsed from the file, with a leading `~` expanded as `pd.read_table` does. A missing file fails with FileNotFound, naming the file as given. A kind other than obs or sim fails with UnknownKind. |
| Processor.DataProcessor.FormatTime | utils.py:136-166 | The result equals FormatTimeSpec of the input. With copy the input is untouched; without it the frame itself is updated. An in-place failure leaves the columns renamed. |
| Processor.DataProcessor.ProcessData | utils.py:168-201 | The result equals ProcessSpec of the input. With copy the input is untouched. The verbose reports are the non-zero negative counts, in magnitude order. |
| Processor.DataProcessor.SanitizeMagnitudes | utils.py:192-199 | The loop stops at the first magnitude column that is missing, with the earlier ones already sanitised. Otherwise every magnitude is sanitised and its count reported. |
| Processor.DataProcessor.GetCachedData | utils.py:203-208 | A hit returns the remembered table and makes it most recent. A miss loads the file and remembers only a success. If the memo agrees with the files, the result is a fresh load. |
| Processor.DataProcessor.Call | utils.py:26-51 | Without caching the result is CallSpec: merge, resolve, load, select. With caching, a hit selects from the remembered table and makes it most recent; a miss loads the file and remembers only a success, evicting the least recently used entry; an unresolved file name leaves the memo as it was. With a memo that agrees with the files, the result is CallSpec and the memo still agrees; a table changed on disk after it was remembered is still served from the memo, as `lru_cache` does. |
| Processor.DataProcessor.GetRunNums | utils.py:118-133 | The result is sorted, a permutation of the parsed run numbers, and has one number per subdirectory. Errors are the ones RunNumsUnsorted gives. |
| Tables.Drop | utils.py:157 | `drop(columns=names)` keeps exactly the columns not named, and nothing else. |
| Tables.RenamedToCanonical | utils.py:137-146 | Renaming yields the k-th canonical time name exactly from the k-th raw name, or from that canonical name itself. |
| Tables.TimeColumnsPresentIff | utils.py:152-155 | After renaming, every canonical time column is present exactly when each raw time column, or its renamed form, was. |
| Tables.DropRenamed | utils.py:153-157 | Renaming, then dropping the time columns and `time`, equals dropping every time name from the original columns. |
| Tables.FormatTimeConsolidates | utils.py:150-157 | About `FormatTimeSpec` (`format_time`, utils.py:136-166): with the time columns present once each, format_time succeeds. The index becomes the stamps of those columns. The remaining columns are the non-time columns, in order. |
| Tables.FormatTimeFailures | utils.py:151-161 | About `FormatTimeSpec` (`format_time`, utils.py:136-166): "Times are missing." is raised exactly when a time column is absent and the index is not a time index. Repeated time columns fail. Otherwise an already-timed table is only renamed. |
| Tables.FormatTimeIdempotent | utils.py:136-166 | format_time on its own result returns that result unchanged. |
| Tables.SanitizeCellsMeaning | utils.py:194-197 | No entry stays negative. Exactly the negative entries become NaN, the rest are kept, and the count is the number of negative positions. |
| Tables.SanitizeNamesMeaning | utils.py:193-195 | After the loop, a column is sanitised when its name is a magnitude and is untouched otherwise. Names and order do not change. |
| Tables.CountUnaffected | utils.py:193-197 | Sanitising the other magnitudes does not change the count reported for this one. |
| Tables.FirstMissing | utils.py:194 | The KeyError names the first magnitude with no column. There is none exactly when all of them are present. |
| Tables.ProcessSanitises | utils.py:168-201 | About `ProcessSpec` (`process_data`, utils.py:168-201): it keeps the index and the column names. It drops `it` for simulated data, leaves the non-magnitude columns unchanged, and NaNs exactly the negative magnitude entries. |
| Tables.ProcessCounts | utils.py:196-199 | With distinct column names, the count for each magnitude is the number of its negative entries. |
| Tables.Absent | utils.py:49 | The KeyError of `data[vars]` lists exactly the requested names that are not columns. |
| Tables.SelectExact | utils.py:48-49 | About `Select` (`data[vars]`, utils.py:48-49): `'all'` returns the table whole. Selecting names fails exactly when one is not a column. Otherwise the result has exactly those columns, in the requested order and taken unchanged, over the same index. |
| Cache.Find | utils.py:203 | A lookup hits exactly for a remembered key, and returns that key's entry. |
| Cache.Remove | utils.py:203 | Removing a key keeps exactly the other entries and keeps the keys distinct. |
| Cache.RemoveKeepsOrder | utils.py:203 | With distinct keys, removing a remembered key cuts out exactly its one entry; the other entries keep their order. |
| Cache.TouchKeepsContents | utils.py:203 | A hit changes no lookup, keeps the size and distinct keys, and moves the key's entry to most recent; the other entries keep their recency order. |
| Cache.AdmitStores | utils.py:203 | Storing a miss: the new entry becomes the most recent one and the older entries keep their order, less the least recently used (first) one when the memo is full. The key finds the new table, the size stays within 64 and the keys stay distinct. Every other key finds what it did before, unless it was the evicted entry. |
| Cache.LruCache.Lookup | utils.py:203 | A lookup returns the remembered table, moves a hit to most recent, and keeps the memo valid. |
| Cache.LruCache.Insert | utils.py:203 | Storing admits the entry with eviction and keeps the memo valid. |
| Metrics.Flattened | JuliaFiles/2021_02_26_RunExploration/Scripts/formatMetrics.py:36-45 | Flattening succeeds exactly when `RMSEdict` (a mapping) and `RMSE` are present. Otherwise it fails with KeyError, for `RMSEdict` first. The keys are the record's keys minus those two, plus the nested keys. Nested values win, and every other value is kept. |
| Metrics.FormatTrajRes | JuliaFiles/2021_02_26_RunExploration/Scripts/formatMetrics.py:36-45 | The argument is not modified. The result is a new dict holding Flattened of it, or Flattened's error. |
| Metrics.JsonDict.Copy | JuliaFiles/2021_02_26_RunExploration/Scripts/formatMetrics.py:38 | The copy is a new dict with the same entries. |
| Metrics.JsonDict.Pop | JuliaFiles/2021_02_26_RunExploration/Scripts/formatMetrics.py:40 | `pop` returns the value and removes the key, or raises KeyError and changes nothing. |
| Metrics.JsonDict.Delete | JuliaFiles/2021_02_26_RunExploration/Scripts/formatMetrics.py:41 | `del` removes the key, or raises KeyError and changes nothing. |
| Metrics.JsonDict.Update | JuliaFiles/2021_02_26_RunExploration/Scripts/formatMetrics.py:43 | `update` adds the other entries, and they win on shared keys. |

Where the code departs from what its comments and callers suggest, the model
follows the code:

- Directory and file resolution takes the first match. An ambiguous match is
  not an error; an empty match is `NoMatch`, the IndexError of `[0]`.
- `get_run_nums` sorts but does not make the numbers distinct. `run1` and
  `run01` both give 1 (`RunNumbersMayRepeat`). The numbers ascend strictly
  only when the numbers parsed from the names are distinct
  (`SortedDistinctIsStrict`).
- A `.` in a selector value is a regex wildcard, so `param='0.35e6'` also
  selects a directory with `0135e6` in its place.
- `get_run_nums` (utils.py:118-128) passes only its own keyword arguments to
  `_get_sim_dir`; the merge with the stored options is commented out. So the
  stored options do not apply there, unlike in `__call__`, and the model's
  `GetRunNums` does not merge them either.
- `pd.read_table` expands a leading `~` in the file name (utils.py:110), so
  `ReadData` and `Load` look the table up under the expanded path, while the
  memo is keyed by the name as given.

## Left out

- The derived fields of `process_data` (utils.py:180-188: `B_tot`,
  `Temperature`, `V_tot` and the rescaled `Rho`) are floating-point
  arithmetic done through `DataFrame.eval`. They are not modelled. For
  simulated data the model expects the magnitude columns to be present
  already, and a missing one fails as the KeyError of the loop.
- File parsing (`pd.read_table`) and directory walking are inputs, held in
  `FileSystem`. The working directory and the home directories are inputs
  too.
- The verbose prints are not modelled, except the per-magnitude negative
  counts (`reported`).
- `pd.to_datetime` is an opaque stamp built from a row's time cells. A row
  whose date is invalid does not fail.
- Cells are `Option<real>`, with `None` standing for NaN. There is no
  floating-point rounding.
- Positional `*args` to `__call__` are not modelled; every selector is a
  keyword. A single string `vars`, which returns a Series, is not modelled;
  `Vars` is `'all'` or a list of names.
- The only regex metacharacter modelled in interpolated selector text is
  `.`. Any other metacharacter is taken literally. `\d` is ASCII digits only,
  without Unicode digits.
- Paths are compared as strings. There is no normalisation of `..`, `.` or
  repeated slashes, and no symbolic links.
- Processor.DataProcessor.ProcessData: after a missing-magnitude failure in
  place, the contract does not state the state of the frame. The earlier
  magnitudes are already sanitised; `SanitizeMagnitudes` does state this.
- The memo returns the remembered table by value. In the source the cached
  DataFrame is shared, so a caller that mutates it changes what later hits
  return. The model does not capture that aliasing.
- `format_traj_res` with an `RMSEdict` that is a list of pairs, which
  `dict.update` also accepts, is not modelled. Any value that is not a
  mapping fails as `NotMapping`.
- Options.FormatRunNum: a string run number is right-filled with `0`
  (`'5'` gives `50`), as `:02` does on Python 3.10 and later. Earlier
  versions raise ValueError for `=` alignment on a string; that is not
  modelled.
- A selector value is a string or an integer (`Options.Value`). A float or
  `None` selector is not modelled, so `param=0.35e6`, which Python renders as
  `350000.0`, has no counterpart.
- Metrics.Flattened: the result is a map, so the key order of the Python dict
  is lost. `format_df` (formatMetrics.py:56) turns that order into the column
  order of its DataFrame; `format_df` is not part of this model.
- Concurrency is not modelled. The source is single-threaded.
