# Techno Harmonic Set — a verified model of the set builder

Techno_Harmonic_Set builds a DJ set from a folder of analysed tracks in two
steps, and this project models both:

* **Key normalisation** (`engenharia_final.py`). Each track's estimated key,
  such as `"C# minor"`, is mapped through a fixed table to its Camelot-wheel
  code, such as `"12A"`. Rows whose key has no code are counted and dropped.
* **Set ordering** (`ordenar_set.py`). The set opens with the slowest track.
  After that, each step looks at the remaining tracks whose tempo lies between
  the current tempo and 7.5% above it. It scores each of those candidates by
  harmonic compatibility: 3 for a neighbouring number with the same letter, 2
  for the same number with the other letter, 1 for a neighbouring number with
  the other letter, with 12 and 1 counted as neighbours. A tempo tie-break
  in (0, 1] is added to the score; it is 1 at the current tempo. The best compatible candidate is played
  next. When no candidate scores, the set "resets" to the slowest remaining
  track.

The model has six modules:

* `Wrappers` holds `Option`.
* `Camelot` parses and renders codes and computes the harmonic score.
* `Tracks` holds the row and track records.
* `CamelotTable` holds the key table. It checks the table against an
  independent circle-of-fifths definition.
* `KeyNormalizer` holds the lookup and the batch step that drops unmapped rows.
* `Sequencer` holds the ordering.

The ordering loop is the method `Sequencer.Sequence`; its scoring loop is
`Sequencer.ScoreCandidates`. Both are proved against the specification
functions `Sequencer.Order` and `Sequencer.ScoredCandidates`. The greedy
properties of the set are lemmas about those functions. The batch step is the
method `KeyNormalizer.AssignCamelotKeys`, proved against
`KeyNormalizer.KeepMapped`.

How the model reads the script:

* Python's `min(..., key=bpm)` returns the first track of least tempo.
* A stable descending sort followed by taking the head returns the first
  candidate of maximal score.
* `list.remove` removes the first equal element.
* If a code that is scored does not parse, `int()` raises and the script
  stops. The model returns `UnreadableKey` in that case.
* An empty input makes `min` raise. The model returns `NoTracks` in that case.

## Model

| member | source | states |
|---|---|---|
| Camelot.ExtractCamelot | ordenar_set.py:21-25 | a key has a code exactly when it has at least two characters and everything before the last one is a numeral; the letter is the last character and the number is non-negative |
| Camelot.ExtractFormatRoundTrip | ordenar_set.py:21-25 | parsing the text of any code with a non-negative number gives that code back |
| Camelot.FormatExtractRoundTrip | ordenar_set.py:21-25 | a key that parses, and has no leading zero, is exactly the text of the code it parses to |
| Camelot.ExtractExamples | ordenar_set.py:21-25 | "12B" parses to (12, 'B') and "8A" parses to (8, 'A') |
| Camelot.HarmonicScore | ordenar_set.py:27-51 | the score is 0..3; it is 3 iff the letters match and the numbers are neighbours; 2 iff the letters differ and the numbers are equal; 1 iff the letters differ and the numbers are neighbours; 0 otherwise |
| Camelot.AdjacentOnWheel | ordenar_set.py:32-37 | on numbers 1..12, the "differ by one, or are 1 and 12" rule is exactly "one is the cyclic successor of the other" |
| Camelot.HarmonicScoreSymmetric | ordenar_set.py:27-51 | swapping the current and the candidate code does not change the score |
| Camelot.SameCodeScoresZero | ordenar_set.py:39-51 | a code scores 0 against itself |
| Camelot.CyclicNeighbours | ordenar_set.py:35-37 | the wrap 12A to 1A scores 3 like 1A to 2A; 12A to 1B scores 1 like 1A to 2B |
| Sequencer.IndexOf | ordenar_set.py:61 | the index found holds the element, and no earlier position does |
| Sequencer.RemoveFirst | ordenar_set.py:61 | removal drops exactly the first copy of the element: everything before it and everything after it stays in place and in order; the length falls by one, and the multiset plus that element is the original |
| Sequencer.MinBpmIndex | ordenar_set.py:59 | the index found holds a track of least tempo, and every earlier track is strictly faster |
| Sequencer.LowestIsFirstOccurrence | ordenar_set.py:59-61 | the first slowest track is the one `remove` takes out |
| Sequencer.Window | ordenar_set.py:70-73 | a track is in the window iff it is available and its tempo lies between the current tempo and 1.075 times it |
| Sequencer.Bonus | ordenar_set.py:81 | the tie-break of a candidate in the window lies in (0, 1], and it is 1 at the current tempo |
| Sequencer.BonusFavoursSmallerIncrease | ordenar_set.py:80-81 | in the window, a smaller tempo increase gives a strictly larger tie-break, and conversely |
| Sequencer.HigherHarmonicWins | ordenar_set.py:78-82 | a higher harmonic score always gives a higher final score, whatever the tie-breaks |
| Sequencer.FinalScore | ordenar_set.py:82 | the final score of a compatible candidate lies strictly above its harmonic score and at most one above it, so between 1 and 4 |
| Sequencer.Collect | ordenar_set.py:77-83 | the collected list is never longer than the list scanned |
| Sequencer.CollectMembers | ordenar_set.py:77-83 | the collected entries are exactly the scored tracks of the list, each with its own score |
| Sequencer.CollectAppend | ordenar_set.py:77-83 | scoring a concatenation gives the concatenation of the scored parts, so list order is kept |
| Sequencer.CollectWindow | ordenar_set.py:73-79 | filtering by the window first changes nothing, for a scorer that only accepts in-window tracks |
| Sequencer.FirstMax | ordenar_set.py:86-89 | the index found holds a maximal score, and every earlier entry's score is strictly lower |
| Sequencer.CollectFindsBest | ordenar_set.py:76-89 | the scored list is empty iff no track scores; otherwise its first maximum is a track of highest score with every earlier scored track lower |
| Sequencer.ScoredCandidates | ordenar_set.py:76-83 | the compatible candidates of the window with their final scores, in window order, never more than the window's tracks (what the entries are is stated by CollectMembers and CollectFindsBest) |
| Sequencer.NextChoice | ordenar_set.py:85-94 | the chosen track is one of the available tracks |
| Sequencer.NextChoiceSpec | ordenar_set.py:70-94 | if no available track is compatible, the choice is the first slowest track; otherwise it is a compatible track of highest final score, and every compatible track before it scores lower |
| Sequencer.HarmonicChoiceExample | ordenar_set.py:70-89 | after 8A at 100 BPM, 9A at 104 BPM is chosen over 3B at 101 BPM |
| Sequencer.ResetExample | ordenar_set.py:90-94 | after 8A at 100 BPM, with 8A at 150 and 1B at 120 outside the window, 1B at 120 is chosen |
| Sequencer.NextChoiceIsGreedy | ordenar_set.py:70-94 | the choice is a compatible track of highest final score when one exists, and otherwise a track of least tempo |
| Sequencer.SequenceFrom | ordenar_set.py:66-99 | any sequence produced is a permutation of the tracks that were available |
| Sequencer.Order | ordenar_set.py:56-99 | the result is NoTracks iff the input is empty; an ordered set is a permutation of the input, with the same length |
| Sequencer.SeedIsLowestBpm | ordenar_set.py:58-61 | the set opens with the first track of least tempo |
| Sequencer.SequenceFromGreedy | ordenar_set.py:66-99 | every step of the produced sequence is greedy over the tracks not yet played |
| Sequencer.PlaylistIsGreedy | ordenar_set.py:66-99 | each track after the first is a compatible track of highest final score among those still to play when one exists, and otherwise a slowest one |
| Sequencer.ReadableSequenceSucceeds | ordenar_set.py:76-83 | when every code parses, the greedy sequence never fails |
| Sequencer.ReadableKeysAreOrdered | ordenar_set.py:56-99 | a non-empty set whose codes all parse is always ordered |
| Sequencer.ScoreStep | ordenar_set.py:77-83 | one turn of the scoring loop appends exactly the candidate's own entry, and only if its harmonic score is positive |
| Sequencer.ScoreCandidates | ordenar_set.py:76-83 | the loop succeeds iff the window is empty or every code it reads parses; on success it returns the scored candidates in window order |
| Sequencer.Sequence | ordenar_set.py:56-99 | the loop computes Order: NoTracks iff the input is empty; an ordered set is a permutation of the input with the same length; when every code parses, the result is never UnreadableKey |
| CamelotTable.TableAgreesWithWheel | engenharia_final.py:10-25 | every table entry, synonyms included, is some tonic followed by " major" or " minor", and maps to that key's circle-of-fifths code |
| CamelotTable.EnharmonicSpellingsAgree | engenharia_final.py:21-24 | two spellings of the same pitch class in the same mode map to the same code |
| CamelotTable.KeysNameAMode | engenharia_final.py:10-25 | every key of the table contains a space |
| CamelotTable.TableValuesAreCodes | engenharia_final.py:10-25 | every value of the table parses to one of the 24 wheel codes |
| CamelotTable.WheelInverse | engenharia_final.py:12-20 | the wheel position of a key determines its pitch class again |
| CamelotTable.PositionInverse | engenharia_final.py:12-20 | every wheel position 1..12 belongs to exactly the pitch class that leads back to it |
| CamelotTable.CanonicalEntry | engenharia_final.py:12-20 | the sharp spelling of each of the 24 keys is in the table, with its circle-of-fifths code |
| CamelotTable.CanonicalCovers | engenharia_final.py:12-20 | each of the 24 wheel codes is the value of some table entry |
| CamelotTable.CanonicalDistinct | engenharia_final.py:12-20 | the code of a sharp spelling leads back to that spelling's pitch class and mode, so the 24 entries take distinct codes |
| KeyNormalizer.FindCamelotKey | engenharia_final.py:39-56 | a missing key, or a key without a space, has no code; a key has a code iff it is in the table, and that code is its table value, a valid wheel code |
| KeyNormalizer.LookupIsExact | engenharia_final.py:48-56 | the space check never rejects a key the table holds |
| KeyNormalizer.EnharmonicExample | engenharia_final.py:13-22 | "G# major" and "Ab major" both map to "4B" |
| KeyNormalizer.UnresolvedExamples | engenharia_final.py:49-56 | the bare note "D" and the lower-case "c major" have no code |
| Tracks.WithCamelotKey | engenharia_final.py:61 | adding the code column copies every field of the row unchanged and sets the code |
| Tracks.CamelotKeyRoundTrip | engenharia_final.py:61 | adding the code column and dropping it again are inverse |
| KeyNormalizer.KeepWith | engenharia_final.py:61-68 | for any lookup, the number of kept rows plus the number of rows it gives no code is the number of input rows |
| KeyNormalizer.CountWith | engenharia_final.py:65 | for any lookup, the count of rows without a code is at most the number of rows, and it is 0 exactly when every row has a code |
| KeyNormalizer.KeptAreCodedRows | engenharia_final.py:61-68 | for any lookup, every kept track is an input row that has a code, with that code added; and every such row is kept |
| KeyNormalizer.KeptWithOwnCode | engenharia_final.py:61-68 | for any lookup, every kept track carries the code that lookup gave its own row |
| KeyNormalizer.KeepWithAppend | engenharia_final.py:61-68 | for any lookup, keeping distributes over concatenation, so the order of the rows is kept |
| KeyNormalizer.CountWithAppend | engenharia_final.py:65 | for any lookup, the count of rows without a code adds up over concatenation |
| KeyNormalizer.KeepMapped | engenharia_final.py:61-68 | the number of kept rows plus the number of unmapped rows is the number of input rows |
| KeyNormalizer.CountUnmapped | engenharia_final.py:65-66 | the count of rows whose key has no code is at most the number of rows, and it is 0 exactly when every row has a code, which is when nothing is dropped |
| KeyNormalizer.KeptAreMappedRows | engenharia_final.py:61-68 | every kept track is an input row whose key is in the table, with its table code added, and every such row is kept |
| KeyNormalizer.KeptRowsHaveCodes | engenharia_final.py:61-68 | every kept track carries its own row's table code, and that code is a valid wheel code |
| KeyNormalizer.KeepMappedAppend | engenharia_final.py:61-68 | the filter distributes over concatenation, so the order of the rows is kept, and the count of unmapped rows adds up |
| KeyNormalizer.AssignStep | engenharia_final.py:61-68 | one turn of the batch loop appends exactly the row with its code when it has one, and otherwise adds one to the count |
| KeyNormalizer.AssignCamelotKeys | engenharia_final.py:61-68 | the loop returns the kept tracks and the count of removed rows; kept plus removed equals the input; the kept tracks are exactly the input rows whose key is in the table, each with its table code, and every kept code is a valid wheel code |

## Left out

- The I/O around both steps is not modelled: reading and writing the CSV files, the progress messages, and `sys.exit` when a file is missing. A table is a sequence of rows, and the result is returned.
- The other scripts (`main.py`, `analise_acoustica.py`, `analise_acoustica_local.py`, `criar_pasta_ord.py`, `escrever_metadados.py`) are not part of this model. They do the audio analysis, the file copying and the tagging.
- Tempos are exact rationals (`real`), not IEEE doubles. The window bound `bpm * 1.075` and the tie-break division are exact, so a tempo within one rounding step of the window's edge may be classed differently than in Python.
- Camelot.ExtractCamelot: Python's `int()` also accepts a sign, surrounding whitespace, underscores between digits and non-ASCII decimal digits. The model accepts only non-empty ASCII digit strings. A key such as "+8A" or " 8A" therefore counts as unreadable here, while Python reads it.
- Sequencer.Sequence: the script raises an exception on an empty input or on an unparseable code. The model returns the `NoTracks` or `UnreadableKey` outcome instead of a bare list.
- Sequencer.Sequence: the tracks that were already placed are not returned with `UnreadableKey`. After a crash the script writes nothing.
- KeyNormalizer.AssignCamelotKeys: pandas' column-wise `apply` followed by `dropna` is modelled as one loop over the rows. It gives the same rows in the same order. The DataFrame's index labels are not modelled.
- KeyNormalizer.FindCamelotKey: a missing value (NaN) or any other non-string value is a single `NotText` case.
- Only the fields the two steps read or carry are kept in a row: artist, title, tempo, estimated key and file name.
