# ACLED pro-Kremlin indicator — a Dafny model

This project models the actor-affiliation indicator used on ACLED protest
events in Russia (2018–2023). Each event has an "associated actor" cell.
The cell is either missing or a string of actor names separated by `"; "`.
The indicator labels the event:

- missing, when the cell is missing;
- `"pro_kremlin"`, when any of its actors is on the hand-picked pro-Kremlin list;
- otherwise `"syst_opposition"`, when any actor is on the systemic-opposition list;
- otherwise `"other"`.

An inventory pass before it lists every distinct actor of the column. That
list is what the two actor lists were picked from.

Modules, one per concern of `acled_pro_kremlin_indicator.py`:

- `StrSplit` (`str_split.dfy`) holds Python's `str.find` and `str.split` for a
  non-empty separator. It also holds `Join` (Python's `sep.join`), the inverse
  that states what splitting does. Both round trips are proved. The second one
  needs a separator that cannot overlap itself, which `"; "` is.
- `ActorLists` (`actor_lists.dfy`) holds the two constant lists. A `Selection`
  pairs them, and `Selected` is the selection the script uses. The longest
  pro-Kremlin name is written as two concatenated literals so that the
  verifier can inspect it. Its value is the source's name.
- `OrgIndicator` (`org_indicator.dfy`) holds the cell and label datatypes, the
  classifier, the column-wide apply, and the properties of the classifier.
- `ActorInventory` (`actor_inventory.dfy`) holds the split / flatten / unique
  pass over a column.
- `Wrappers` (`wrappers.dfy`) holds `Option`. Its `None` is pandas' missing
  value.

The classifier reads the two lists as globals. The model passes them in as a
`Selection` parameter, so its general lemmas hold for any pair of lists. The
concrete lemmas use `Selected`.

The classifier's docstring (lines 50-57) promises an integer in {0, 1, 2}. It
says `'Government of Russia (2000-); Labour Group (Russia)'` gives `1`. The code
returns the strings above instead, and the model follows the code. For that
input the code returns `"other"`. Matching is by whole name, and only the
Chechnya-qualified government entry (line 26) is on the pro-Kremlin list. The
lemma `DocumentedExampleIsOther` records this.

## Model

| member | source | states |
|---|---|---|
| StrSplit.Find | acled_pro_kremlin_indicator.py:61 | The result is the leftmost occurrence of the separator at or after the start index, with no occurrence before it. No result means the separator occurs nowhere from that index on. |
| StrSplit.Split | acled_pro_kremlin_indicator.py:61 | Splitting always yields at least one piece, so `""` yields `[""]`. |
| StrSplit.JoinSplit | acled_pro_kremlin_indicator.py:10 | Joining the pieces with the separator gives back the original string. |
| StrSplit.SplitSeparatorFree | acled_pro_kremlin_indicator.py:61 | No piece contains the separator. |
| StrSplit.SplitSingleton | acled_pro_kremlin_indicator.py:61 | A string splits into the one-element list of itself exactly when it does not contain the separator. |
| StrSplit.SplitJoin | acled_pro_kremlin_indicator.py:61 | For an unbordered separator, splitting a join of one or more separator-free pieces gives back exactly those pieces. |
| ActorLists.ListsDisjoint | acled_pro_kremlin_indicator.py:21-47 | No actor is on both lists. |
| ActorLists.ProKremlinSemicolonFree | acled_pro_kremlin_indicator.py:21-36 | No pro-Kremlin name contains a semicolon. |
| ActorLists.SystOppositionSemicolonFree | acled_pro_kremlin_indicator.py:38-47 | No systemic-opposition name contains a semicolon. |
| OrgIndicator.NamesDistinct | acled_pro_kremlin_indicator.py:63-68 | The three labels are returned as three different strings. |
| OrgIndicator.DelimUnbordered | acled_pro_kremlin_indicator.py:61 | The delimiter `"; "` has two characters and cannot overlap itself. |
| OrgIndicator.AnyIn | acled_pro_kremlin_indicator.py:63-65 | The short-circuit `any(actor in names ...)` is true exactly when some actor is in the list. |
| OrgIndicator.Classify | acled_pro_kremlin_indicator.py:58-68 | A missing cell gives missing, and only a missing cell does. For a string cell, split on `"; "`: the label is pro-Kremlin iff some piece is on the pro-Kremlin list. It is systemic opposition iff no piece is pro-Kremlin and some piece is on the opposition list. It is other iff no piece is on either list. |
| OrgIndicator.ClassifyBySet | acled_pro_kremlin_indicator.py:63-68 | A string cell's label equals a reference label computed from the set of its pieces by intersecting that set with the two lists. |
| OrgIndicator.ClassifyJoined | acled_pro_kremlin_indicator.py:61-68 | Take one or more delimiter-free actor names and join them with `"; "`. The cell's label is the reference label of the set of those names. |
| OrgIndicator.ActorOrderIrrelevant | acled_pro_kremlin_indicator.py:63-68 | Two such cells that name the same set of actors get the same label. So permuting or repeating actors does not change the label. |
| OrgIndicator.ProKremlinTakesPrecedence | acled_pro_kremlin_indicator.py:63-64 | One pro-Kremlin actor among the joined names makes the label pro-Kremlin, whatever opposition actors are also named. |
| OrgIndicator.ListedActorsClassify | acled_pro_kremlin_indicator.py:21-47 | Every listed name, alone in a cell, gets its own list's label, so no entry can never match. |
| OrgIndicator.GovernmentOfRussiaUnlisted | acled_pro_kremlin_indicator.py:26 | `Government of Russia (2000-)` is a proper prefix of the Chechnya-qualified pro-Kremlin entry, yet it is on neither list. |
| OrgIndicator.LabourGroupUnlisted | acled_pro_kremlin_indicator.py:54 | `Labour Group (Russia)` is on neither list. |
| OrgIndicator.DocumentedCellSplits | acled_pro_kremlin_indicator.py:54-55 | The documented cell splits into exactly its two documented actors. |
| OrgIndicator.DocumentedExampleIsOther | acled_pro_kremlin_indicator.py:54-56 | The documented cell is labelled other, not the `1` its docstring claims. |
| OrgIndicator.ChechnyaQualifiedIsProKremlin | acled_pro_kremlin_indicator.py:26 | The same cell with the Chechnya-qualified government entry is labelled pro-Kremlin. |
| OrgIndicator.ClassifyColumn | acled_pro_kremlin_indicator.py:71 | Every row gets its own cell's label, and a row is missing exactly when its cell is. |
| ActorInventory.SplitCell | acled_pro_kremlin_indicator.py:10 | A missing cell becomes NaN and only a missing cell does. A string becomes one or more delimiter-free names that join back to it. |
| ActorInventory.FlattenAppend | acled_pro_kremlin_indicator.py:13 | Flattening two runs of entries gives the first run's items followed by the second's. |
| ActorInventory.FlattenedColumnAppend | acled_pro_kremlin_indicator.py:10-13 | The flat list of a column is its earlier rows' items followed by its later rows' items. |
| ActorInventory.FlattenMembership | acled_pro_kremlin_indicator.py:13 | A value is in the flat list exactly when some entry contributes it. |
| ActorInventory.FlattenedCell | acled_pro_kremlin_indicator.py:10-13 | A missing cell contributes the single placeholder. A string cell contributes its split names, in order. |
| ActorInventory.PlaceholdersOfCell | acled_pro_kremlin_indicator.py:10-13 | A cell contributes one placeholder if it is missing, none otherwise. |
| ActorInventory.PlaceholderPerMissingCell | acled_pro_kremlin_indicator.py:10-13 | The flat list holds exactly as many placeholders as the column has missing cells. |
| ActorInventory.ActorsOfCell | acled_pro_kremlin_indicator.py:10-13 | A cell contributes a name exactly when it is a string that splits into that name. |
| ActorInventory.ActorsInFlattenedColumn | acled_pro_kremlin_indicator.py:10-13 | A name is in the flat list exactly when some string cell of the column splits into it. |
| ActorInventory.UniqueValuesAreActors | acled_pro_kremlin_indicator.py:16 | The inventory holds exactly the non-placeholder values of the flat list. Equivalently, it holds the names that the column's string cells split into. |
| ActorInventory.UnlistedInventoryMeansOther | acled_pro_kremlin_indicator.py:16-68 | If no inventoried actor is on either list, every string row is labelled other. |
| ActorInventory.ProKremlinRowsAreInventoried | acled_pro_kremlin_indicator.py:16-68 | A row labelled pro-Kremlin implies that some inventoried actor is on the pro-Kremlin list. |

## Left out

- Reading the events CSV and writing the labelled CSV (lines 6 and 74) are file I/O. The DataFrame column assignment (line 71) is modelled only as the sequence `ClassifyColumn` returns.
- Coercing a cell that is neither missing nor a string with `str(value)` (line 61) is not modelled. A `Cell` is either missing or a string.
- pandas has several missing markers (NaN, None, `pd.NA`). All of them are the one `NA` cell. For such cells `pd.isna` (line 58) and the `isinstance(..., str)` test (line 10) agree.
- The NaN placeholder is dropped in the source by its self-inequality (`x == x`, line 16). Here it is a separate `NA` value, and the inventory keeps only string values.
- StrSplit.Split: requires a non-empty separator rather than modelling the `ValueError` Python raises for `""`. The script only splits on `"; "`.
- The `re` import and the bare `len(unique_values)` expression (lines 3 and 18) have no behaviour.
- The docstring's integer output {0, 1, 2} (lines 50-57) is not modelled. The code returns strings, and `Label.Name` gives them.
- protest_type_classification_deberta.py is not part of this model. Its tokenisation, model set-up, training and prediction are calls into external ML libraries whose behaviour is not visible. Its label encoding, data split and metrics are thin library wrappers. Its ensembling averages floating-point logits.
