# CSV Cleaner & Auto-Filter: schema detection and projection

This project models the decision logic of `Code-Files/CSV-Filter.py`, a small
tool for astronomy CSV files. It reads a data frame and classifies it by its
column labels against two fixed feature lists. Type 1 holds observational
parameters and Type 2 astrometric parameters. It then projects the frame onto
the chosen list and drops every column that holds no value.

- `Tables`: the data frame. It is an ordered list of labelled columns of cells.
  A cell is an `Option<string>`, and `None` stands for a missing (NaN) value. A
  separate row count keeps the rows of a frame that has no columns. `WellFormed`
  says what every parsed frame satisfies: unique labels and equal-length columns.
- `Classifier`: the two feature lists, `any(...)` as `AnyPresent`, and the
  four-way decision of `detect_data_type` as the tagged `Classification`
  (`Type1 | Type2 | Both | NoMatch`). `NoMatch` is Python's `None` for
  `data_type`, both before any upload and after an unrecognised file.
  `Resolve` is the yes/no override of an ambiguous result.
- `Projector`: the list comprehension is `SelectedNames`, `df[list]` is
  `SelectColumns`, `dropna(axis=1, how="all")` is `DropEmpty`, and `Project` is
  the three composed. It is proved idempotent.
- `Pipeline`: the four module globals as the fields of a `Session` class, and
  the four button handlers as its methods. Each handler's guards and state
  updates appear in its postconditions. Two ghost fields record which frame
  the current classification came from and what detection gave for it. Two client methods follow a whole
  button sequence.
- `Sequences`, `Wrappers`: generic helpers (duplicate freedom, order-preserving
  subsequences, `Option`).

Inputs replace the outside world. The file dialog's answer is an
`Option<string>`. A cancelled dialog is `None`: Python stores an empty string
there, which the guards treat the same way. Each `pd.read_csv` call is an
`Option<Table>`, with `None` when the reader raised. The yes/no question is a
`bool`. `save_file` returns the `Export` (path and frame) that `to_csv` would
be asked to write.

Behaviour of the code that the model keeps:

- The code enforces no stage order beyond its three guards. Uploading a new
  file does not discard the old cleaned frame, so an immediate filter projects
  the previous file's data with the new file's classification
  (`Pipeline.ReuploadWithoutClear`).
- There is no separate "no overlap" error. A resolved type whose list shares no
  label with the frame yields a frame with no columns and the same row count.
  When the classification came from the cleaned frame itself, the selection is
  never empty (`Pipeline.SelectionNonEmpty`).
- A failed read in `detect_data_type` keeps the old `data_type`, and a failed
  read in `clear_csv` keeps the old `cleaned_df`.
- An ambiguous `Both` is overwritten by the first `filter_csv` that passes its
  first guard, so later filters do not ask again. This lasts only until the
  next successful upload: if that upload again detects `Both`, the next filter
  asks once more.
- On a frame with zero rows, `dropna(how="all")` drops every column, because
  every cell of an empty column counts as missing. `HasValue` asks for an
  existing non-missing cell, so `DropEmpty` does the same.

## Model

| member | source | states |
|---|---|---|
| `Tables.Names` | Code-Files/CSV-Filter.py:38 | the labels have one entry per column, and entry i is the label of column i |
| `Tables.NameSet` | Code-Files/CSV-Filter.py:38 | a label is in the set exactly when some column of the frame carries it, that is, exactly when it is among the frame's labels |
| `Tables.HasValue` | Code-Files/CSV-Filter.py:104 | a column holds a value exactly when not every one of its cells is missing, which is the negation of `how="all"` |
| `Classifier.AnyPresent` | Code-Files/CSV-Filter.py:41-42 | true exactly when some feature of the list is among the column labels |
| `Classifier.Classify` | Code-Files/CSV-Filter.py:41-51 | Type 1 iff only the first list overlaps the labels; Type 2 iff only the second does; Both iff both do; NoMatch iff neither does (four exhaustive, exclusive outcomes) |
| `Classifier.ClassifyTableByColumns` | Code-Files/CSV-Filter.py:37-51 | a parsed frame is Type 1 iff some column is labelled with an observational feature and none with an astrometric one; Type 2 is the mirror case; Both iff it has columns from both lists; NoMatch iff it has columns from neither |
| `Classifier.FeatureListsDistinct` | Code-Files/CSV-Filter.py:11-22 | neither feature list repeats a name and the two lists share no name |
| `Classifier.FeaturesNoDuplicates` | Code-Files/CSV-Filter.py:91-94 | the list selected for a resolved type has no repeated name |
| `Classifier.FeaturesOfType` | Code-Files/CSV-Filter.py:91-94 | Type 1 selects the observational list and Type 2 the astrometric list, and never the other |
| `Classifier.Resolve` | Code-Files/CSV-Filter.py:83-88 | the result is never Both; Both becomes Type 1 exactly on a yes answer and Type 2 exactly on a no answer; any other value is kept |
| `Classifier.ClassifyDependsOnlyOnLabelSet` | Code-Files/CSV-Filter.py:37-42 | two frames with the same set of labels get the same classification, whatever the order, repetition or cells of their columns |
| `Classifier.ClassifyIgnoresOrderAndCells` | Code-Files/CSV-Filter.py:37-42 | two frames whose label lists are permutations of each other get the same classification, whatever their cells |
| `Scenarios.MixedColumnsAreAmbiguous` | Code-Files/CSV-Filter.py:41-49 | a frame with `source_id`, `ra`, `dec` and `obs_collection` is classified Both |
| `Projector.SelectedNames` | Code-Files/CSV-Filter.py:101 | the selection holds exactly the features that are column labels; it is a subsequence of the feature list (feature-list order) and has no duplicates when the list has none |
| `Projector.Lookup` | Code-Files/CSV-Filter.py:101 | indexing a label that the frame has gives one of its columns with that label |
| `Projector.SelectColumns` | Code-Files/CSV-Filter.py:101 | `df[names]` has exactly the requested labels in the requested order, and each column is one of the frame's columns, cells untouched |
| `Projector.SelectColumnsCoversLabels` | Code-Files/CSV-Filter.py:101 | with unique labels, every column whose label is selected appears in the selection |
| `Projector.DropEmpty` | Code-Files/CSV-Filter.py:104 | a column is kept iff it was present and holds at least one non-missing cell; kept columns stay in their relative order |
| `Projector.Project` | Code-Files/CSV-Filter.py:99-104 | row count unchanged; labels form a subsequence of the feature list; a column is in the result iff it is a column of the frame whose label is listed and which holds a value; a duplicate-free list gives a well-formed frame |
| `Projector.SelectedNamesOfSubsequence` | Code-Files/CSV-Filter.py:101 | selecting from a duplicate-free list the labels of one of its subsequences gives that subsequence back |
| `Projector.SelectedNamesAgree` | Code-Files/CSV-Filter.py:101 | selection depends only on which features are labels |
| `Projector.SelectOwnNames` | Code-Files/CSV-Filter.py:101 | indexing a frame by its own unique labels returns its columns unchanged |
| `Projector.DropEmptyKeepsFull` | Code-Files/CSV-Filter.py:104 | dropping empty columns from columns that all hold a value changes nothing |
| `Projector.ProjectIdempotent` | Code-Files/CSV-Filter.py:101-104 | projecting an already projected frame with the same duplicate-free feature list returns it unchanged |
| `Pipeline.SelectionNonEmpty` | Code-Files/CSV-Filter.py:83-101 | if a frame was classified Both, or as the resolved type itself, that type's selection on the same frame is non-empty |
| `Pipeline.IsGiven` | Code-Files/CSV-Filter.py:28 | a dialog answer counts as given exactly when it exists and is non-empty (also the guards at lines 65 and 117) |
| `Pipeline.ResolveKeepsDetection` | Code-Files/CSV-Filter.py:83-88 | after resolution the type is still the detected type, or the answer's choice when the detected type was Both |
| `Pipeline.Session.constructor` | Code-Files/CSV-Filter.py:5-8 | all four globals start as None, and no frame has been classified yet |
| `Pipeline.Session.UploadFile` | Code-Files/CSV-Filter.py:24-51 | the path is always stored; a missing path or a failed read keeps the old classification; otherwise the classification is that of the read frame; the frames are untouched |
| `Pipeline.Session.ClearCsv` | Code-Files/CSV-Filter.py:63-74 | without an uploaded path nothing changes; a failed read keeps the old cleaned frame; otherwise the read frame becomes the cleaned frame; nothing else changes |
| `Pipeline.Session.FilterCsv` | Code-Files/CSV-Filter.py:76-108 | without a cleaned frame nothing changes; otherwise Both is resolved by the answer and never remains; an unknown type leaves the filtered frame as it was; otherwise the filtered frame is the cleaned frame projected onto the resolved type's list, whose selection is non-empty when the classification came from that frame |
| `Pipeline.Session.ApplyFilter` | Code-Files/CSV-Filter.py:99-106 | the filtered frame becomes the cleaned frame projected onto the resolved type's list, nothing else changes, and the selection is non-empty when the classification came from the cleaned frame |
| `Pipeline.Session.SaveFile` | Code-Files/CSV-Filter.py:110-121 | without a filtered frame, or without a file name, nothing is written; otherwise exactly the filtered frame goes to the chosen path; no global changes |
| `Pipeline.ProcessFile` | Code-Files/CSV-Filter.py:24-121 | upload, clear, filter and save on one file write the projection onto the resolved type's list exactly when that type is known |
| `Pipeline.ReuploadWithoutClear` | Code-Files/CSV-Filter.py:24-108 | after a second upload without a new clear, filtering projects the first frame with the second frame's classification |

## Left out

- The tkinter window, buttons and main loop (Code-Files/CSV-Filter.py:123-165): presentation only. Their click order is modelled by the `Session` methods and the two client methods.
- The texts shown by `messagebox`. Each handler returns a status naming the branch taken instead.
- CSV parsing by `pd.read_csv(..., comment="#")` and writing by `to_csv(index=False)`: these are a foreign library. The parsed frame is an input, and the write is returned as an `Export`. So the export-and-reload round trip is not modelled.
- NaN and numeric cell semantics: a cell is raw text or missing.
- Exceptions inside the `try` of `filter_csv` (Code-Files/CSV-Filter.py:99-108): selection and dropping are total on a parsed frame, so the model has no failure path there.
- An exception from `to_csv` (Code-Files/CSV-Filter.py:118) is not caught by the source and is not modelled.
- Duplicate column labels: pandas renames them while parsing, so every input frame is assumed well formed (`ClearCsv` requires it of the frame it stores).
- Project: guarantees a well-formed frame only for a duplicate-free feature list, since a repeated feature would repeat its column as pandas does. Both fixed lists are duplicate-free (`Classifier.FeatureListsDistinct`).
