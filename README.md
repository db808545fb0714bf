# coda: reading, indexing and table assembly, CLR and column distances

This project models the deterministic core of `coda`. The program reads
long-format records of the form (sample, OTU, length, count), one per
tab-separated line. From them it builds a dense OTU x sample table of counts
per 100 length units. It then applies the centred log-ratio (CLR)
transformation to every column and computes the all-pairs Euclidean
distances between the columns (the Aitchison distance).

Modules:

- `Utils` (utils.cpp). There are two tab tokenizers, both built on
  `getline`.
  - `Split` returns every piece.
  - `SplitInto` writes the pieces into a caller-owned four-slot array and
    fails on a fifth piece.
  - Both are proved against the pure `Tokens`. `Fill` says what the array
    holds afterwards: slots past the last piece keep their old contents.
- `Elements` (element.h, element.cpp). The `Element` record, the parser of
  one record with optional zero replacement, and the count normalisation.
- `Indexing` (the `try_emplace(key, size())` idiom of coda.cpp). Dense
  first-appearance numbering of names, and the reverse tables.
- `Mat` (mat.cpp). Column-major index arithmetic, the in-place per-column
  CLR, the Euclidean distance, and the symmetric all-pairs distance matrix.
- `Coda` (the reading loop and the table assembly in `main` of coda.cpp).
  - One token array is reused across lines, exactly as the program does.
    Its stale slots are part of the reading state.
  - The indexes, the element list and the zero counter are threaded
    through `ReadAll`. The imperative loop `Ingest` is proved equal to
    `ReadAll`.
  - The table is pre-filled and then written element by element;
    `AssembleTable` is proved equal to `Cell`.
  - `Run` chains reading, the reverse tables, assembly, CLR and distances.
- `Legacy` (main.cpp, version 0.1.0). Its own parser always replaces zero
  counts. The current program calls `parse_data_line` with replacement on
  (coda.cpp:78), so that parser is proved to behave the same and differs
  only in its signature. Two differences change what a run does: the table
  is pre-filled with zero (main.cpp:295-297), and the reading loop keeps no
  zero counter (main.cpp:262-273). Its copies of `split`, the reading loop,
  `clr_in_place` and `colwise_distance` are the same code as utils.cpp,
  mat.cpp and coda.cpp, so the legacy run reuses those models.

Stand-ins for things outside the model:

- The input file is a sequence of lines.
- `stof` and `stoi` are partial parsers passed in as parameters. `None`
  stands for the exception they throw.
- `logf` is any function `real -> real`. `sqrtf` is any function that is
  never negative and maps 0 to 0.
- Floats are reals.
- An exception thrown while reading ends the program. Here it is the
  `Failure` result of the run.

## Model

| member | source | states |
|---|---|---|
| Utils.Tokens | utils.cpp:11-23 | no piece contains the delimiter, and there are no pieces exactly when the line is empty |
| Utils.FieldEnd | utils.cpp:18 | the first piece stops before the first delimiter, or at the end of the line when there is none |
| Utils.FieldEndUnique | utils.cpp:18-20 | a `getline` piece ends at the first delimiter, or at the end of the line if there is none |
| Utils.TokensCons | utils.cpp:18-20 | a delimiter-free piece followed by the delimiter is read as one piece, and reading goes on after the delimiter |
| Utils.NextField | utils.cpp:18 | one `getline` call scans from its start to the first delimiter or to the end of the line, whichever comes first |
| Utils.TokensAt | utils.cpp:18-20 | reading from position `pos` yields the piece up to the next delimiter, then the pieces of the rest |
| Utils.JoinTokens | utils.cpp:11-23 | joining the pieces of a line that does not end in the delimiter gives the line back |
| Utils.TokensJoin | utils.cpp:11-23 | splitting delimiter-free pieces after joining them (last piece non-empty) gives the pieces back |
| Utils.TokensStep | utils.cpp:18-20 | after one more `getline` call, the pieces read so far, the new piece and the pieces still to come make up the pieces of the whole line |
| Utils.Fill | utils.cpp:32-40 | after writing k pieces, slots below k hold the pieces in order and the others keep their previous contents |
| Utils.Split | utils.cpp:11-23 | the vector `split` returns exactly the `getline` pieces of the line |
| Utils.SplitInto | utils.cpp:25-41 | the array `split` fails exactly when there are more pieces than slots; on success and on failure the array holds the old slots overwritten by the pieces, so after a failure the four slots hold the first four pieces |
| Elements.ParseDataLine | element.cpp:19-42 | sample and OTU are copied verbatim and both indexes are 0; a failed `stof` or `stoi` is an error; the count is the parsed integer, except that 0 becomes 0.05 when replacement is on; with replacement, a non-negative count becomes positive |
| Elements.NormalizeCount | element.cpp:45-49 | the result times the length is 100 times the count; it is positive for positive count and length, and 0 for a zero count |
| Indexing.Register | coda.cpp:86-89 | `try_emplace(key, size())` keeps every existing entry; a new key gets the old size and the map grows by one, and a present key leaves the size unchanged |
| Indexing.RegisterAll | coda.cpp:86-89 | the index after one `try_emplace` per name in input order always holds the last name registered |
| Indexing.RegisterAllSnoc | coda.cpp:86-89 | registering one more name is one further `try_emplace` on the index built so far |
| Indexing.RegisterAllNumbersFirstSeen | coda.cpp:86-89 | the index numbers the distinct names by their position in first-appearance order, and holds no other key |
| Indexing.IndexIsDense | coda.cpp:86-89 | the index keys are exactly the names seen, every number is below the index size, and no two names share a number |
| Indexing.IndexIsOnto | coda.cpp:86-89 | every number below the index size is assigned to some name |
| Indexing.RegisterAllKeepsIndices | coda.cpp:86-89 | later lines never change a name's number, and names first seen later get numbers at least the earlier size |
| Indexing.IndexIsFirstAppearanceCount | coda.cpp:86-89 | a name first seen at position p gets the number of distinct names before p |
| Indexing.FirstAppearanceOrder | coda.cpp:86-89 | a name seen before another name's first appearance gets the smaller number |
| Indexing.BuildLookup | coda.cpp:107-114 | visiting the pairs in any order, the reverse table's keys are the index values and each entry maps back; for an injective index it is the exact inverse |
| Indexing.LookupIsTotalBelowSize | coda.cpp:152-158 | for a built index, `lookup.at(i)` succeeds exactly for i below the index size |
| Mat.ColMajorIndexInRange | mat.cpp:4-8 | a cell of an nrows x ncols matrix maps below nrows * ncols |
| Mat.ColMajorIndex | mat.cpp:4-8 | for a row inside the matrix, dividing the position by nrows gives the column and the remainder gives the row |
| Mat.ColMajorIndexInjective | mat.cpp:4-8 | two cells inside the rows share a storage position exactly when they are the same cell |
| Mat.Column | mat.cpp:15 | `col(j)` has one entry per row, and entry i is cell (i, j) |
| Mat.Logs | mat.cpp:15 | `log()` of a column has one entry per row, and entry i is the logarithm of entry i |
| Mat.MeanLog | mat.cpp:16 | the mean log times the number of rows is the sum of the logs; an empty column gives 0 |
| Mat.Clr | mat.cpp:18-20 | each entry is its logarithm minus the mean log of its column, and the length is kept |
| Mat.ClrSumsToZero | mat.cpp:14-21 | every CLR-transformed column sums to zero |
| Mat.ClrIgnoresScale | mat.cpp:14-21 | when log turns products into sums, scaling a column does not change its CLR |
| Mat.MeanLogScaled | mat.cpp:15-16 | when log turns products into sums, scaling a column by `a` raises its mean log by `log(a)` |
| Mat.ClrInPlace | mat.cpp:11-22 | every column ends as the CLR (log minus the column's mean log) of its original contents |
| Mat.CenterColumn | mat.cpp:18-20 | the mean is taken before column j is rewritten; the column becomes its CLR and every other column is unchanged |
| Mat.SquaredDistance | mat.cpp:28 | the sum of the squared entrywise differences is never negative |
| Mat.Distance | mat.cpp:25-29 | a distance is never negative |
| Mat.DistanceToSelf | mat.cpp:25-29 | a vector is at distance 0 from itself |
| Mat.DistanceSymmetric | mat.cpp:25-29 | the distance does not depend on the order of its arguments |
| Mat.ColwiseDistance | mat.cpp:34-52 | the result is cols x cols with a zero diagonal; off the diagonal, entry (p, q) is the distance between columns p and q; it is symmetric and non-negative |
| Mat.FillRow | mat.cpp:43-48 | one pass of the outer loop fills row i right of the diagonal and the mirrored column entries, and leaves every other cell as it was |
| Coda.Start | coda.cpp:36-45 | reading starts with four empty token slots, empty indexes, no elements and a zero counter at 0 |
| Coda.Accept | coda.cpp:81-95 | the new element is the parsed one with its names' indexes; both names are registered; it is appended; the zero counter grows exactly when the count is below 1 |
| Coda.ReadLine | coda.cpp:77-78 | a line with more than four fields fails; otherwise the slots are refilled from the line and parsed with replacement; a failed conversion fails, and a parsed element is accepted |
| Coda.ReadAll | coda.cpp:76-96 | a successful run keeps four slots and produces one element per line |
| Coda.ReadAllSnoc | coda.cpp:76-78 | reading one more line continues from the state the earlier lines left |
| Coda.AcceptKeepsConsistent | coda.cpp:81-95 | accepting an element keeps the reading state consistent |
| Coda.ReadAllState | coda.cpp:76-96 | after reading, each index is the one built by registering names in input order; each element carries its names' final indexes; the zero counter equals the number of counts below 1 |
| Coda.ConsistentIndexesDense | coda.cpp:86-93 | in a consistent state both indexes are injective, and every element's indexes are below the table dimensions |
| Coda.ReadAllIndexesDense | coda.cpp:86-93 | after a successful read both indexes are injective and every element addresses a cell inside the table |
| Coda.FailureIsFinal | coda.cpp:76-78 | once a line throws, later lines are never read |
| Coda.TooManyFieldsAborts | coda.cpp:77 | any line with more than four fields makes the whole read fail |
| Coda.BlankLineReusesSlots | coda.cpp:77-78 | a blank line leaves the token array as it was and is parsed from the previous line's fields |
| Coda.BlankLineRepeatsPrevious | coda.cpp:77-95 | a blank line after a successful line appends a copy of the previous element |
| Coda.ReadAllCountsPositive | coda.cpp:78 | when the count parser never returns a negative number, every element read has a positive count |
| Coda.Cell | coda.cpp:119-130 | every cell holds either the pre-fill or the normalised count of an element that addresses that cell |
| Coda.TableColumn | coda.cpp:119-130 | column c of the assembled table has one entry per OTU, and entry r is that cell |
| Coda.UnaddressedCellKeepsFloor | coda.cpp:119 | a cell that no element addresses keeps the pre-fill value |
| Coda.LastWriteWins | coda.cpp:126-130 | a cell holds the normalised count of the last element addressing it; counts are never summed |
| Coda.CellsPositive | coda.cpp:119-130 | with a positive pre-fill and positive counts and lengths, every table cell is positive |
| Coda.AssembleTable | coda.cpp:119-130 | the table is fresh, has OTUs x samples cells, and every cell is the pre-fill overwritten by the cell writes in input order |
| Coda.ReadLineInto | coda.cpp:77-95 | one pass of the loop over the reused token array yields exactly `ReadLine`, and on success the state records the array's new contents |
| Coda.Ingest | coda.cpp:76-96 | the reading loop, with one reused token array, yields exactly `ReadAll`, including its failures |
| Coda.Run | coda.cpp:76-169 | a failed read is returned as is; otherwise the reverse tables invert the indexes, the CLR table is the CLR of the assembled table column by column, and the distances are those between its columns |
| Coda.Analyse | coda.cpp:76-169 | the same as `Run`, with the table pre-filled with 0.05 |
| Legacy.ParseDataLineLegacy | main.cpp:149-172 | the legacy parser equals `parse_data_line` with zero replacement on |
| Legacy.LegacyAnalyse | main.cpp:261-328 | the same as `Run`, with the table pre-filled with 0 |
| Legacy.ZeroPrefillReachesLog | main.cpp:295-303 | with the zero pre-fill, a pair absent from the input is 0 and the CLR takes its logarithm |
| Legacy.PseudoCountPrefillIsPositive | coda.cpp:119 | on the same input, the current pre-fill leaves only positive cells |

## Left out

- File and stream I/O is not modelled:
  - opening and reading the input file (the lines are a parameter);
  - the output files, their header rows and the TSV formatting;
  - the messages printed when a file cannot be opened.
- `log_msg` and `element_print`: diagnostic printing only.
- The randomized SVD, its projection and the random engine: a wrapper over an external library.
- Parsing of the seed argument: it only feeds the SVD.
- The "% zeros" diagnostic (coda.cpp:121-123): it is computed only to be printed.
- The internals of `stof` and `stoi` (whitespace, trailing text, range): they are partial parser parameters.
- Single-precision floats, `logf` and `sqrtf`: the model works over reals with an arbitrary logarithm and square root, so no result is claimed bit for bit.
- Elements.NormalizeCount: requires a non-zero length. The program divides by a float zero and gets an infinity or NaN, which reals cannot express.
- Coda.Run, Coda.Analyse, Legacy.LegacyAnalyse: require every element read to have a non-zero length, for the same reason.
- Widths of `size_t`, `int` and `unsigned long`: indexes and the zero counter are unbounded, so wrap-around is not modelled.
- Coda.Ingest: an exception ends the whole program. Here it is a `Failure` result, and the state at the time of the throw is not observable.
- `elements.clear()` and the swap that frees the element vector (coda.cpp:133-134) release memory only. The element list is a value that the run no longer uses, so "empty after assembly" is not stated.
- Mat.MeanLog: for a column with no rows the program computes 0/0. No cell ever uses it, and the model uses 0.
- The legacy loop has no zero counter. The shared reading state still carries one, and the legacy run ignores it.

## Findings

| source | as written | input that shows it | evidently intended | confidence | as-written member | corrected member |
|---|---|---|---|---|---|---|
| main.cpp:295-297 | the legacy table is pre-filled with 0, so an (OTU, sample) pair absent from the input stays 0 and the CLR transform takes log(0) | OTU "A" only in sample "s1" and OTU "B" only in sample "s2" (count 1, length 1): cell (B, s1) is 0 | absent pairs carry the pseudo-count 0.05, as zero counts already do and as coda.cpp:119 does, so every logarithm is of a positive number | medium, not executed | Legacy.ZeroPrefillReachesLog | Coda.CellsPositive |
