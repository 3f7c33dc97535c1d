# Inter-annotator agreement bookkeeping and antonym-pair extraction

This project models the deterministic part of a small research toolkit for
annotating antonym pairs. It has two parts.

- The evaluation, `code/evaluation.py`:
  - It loads two annotators' tab-separated files into annotation sets. Each
    set is a dictionary from the pair `(pos_element, neg_element)` to its row.
  - It runs four agreement calculations over three filters: none (column
    "affixal"); both annotators say "affixal" (column "directness", and again
    column "subtype"); both say "affixal" and both say "indirect" (column
    "subtype"). Each collects one column of both annotators into two parallel
    label lists for Cohen's kappa and, for the two subtype calculations, a
    confusion matrix.
  - It runs three disagreement reports. Each prints the selected pairs and
    then a counter that starts at 1.
- The antonym extraction, `code/get_wn_antonyms.py`. It walks the lexical
  database and fills a dictionary of (lemma, antonym) pairs. A pair is
  skipped when its reverse is already stored.

The modules follow the structure of the program:

- `Dicts` models an insertion-ordered Python dictionary. It is a sequence of
  keys in first-insertion order plus a map. Python's `d[k] = v` keeps an
  existing key's position. Iterating over a dictionary visits the keys in
  insertion order, so that order is part of the state.
- `Annotations` holds the rows and the loader `GetAnnotations`.
- `Selection` is the walk every calculation and report shares. `Selected(a, b, c)`
  is annotator 1's pairs, in order, that annotator 2 shares and whose rows
  meet criterion `c`. `LabelLists` gives the two parallel column lists over
  those pairs. Its lemmas relate the criteria to one another.
- `Agreement` has the four `calculate_agreement_*` loops as methods. Each one
  is proved equal to the `Selection` specification.
- `Disagreements` has the three `show_disagreements*` loops. A report is its
  sequence of printed lines, each a pair and the values printed after it,
  plus the final counter.
- `Evaluation` is the driver sequence without its prints. The run yields the
  two annotation sets, the n, kappa and confusion matrices of each
  calculation and the final counter of each report. The cascade of filters
  is proved over them.
- `Antonyms` has the extraction loop `CollectAntonyms` over the sequence of
  visits the traversal makes. It is proved equal to a fold of `Step`, and the
  fold's properties are proved as lemmas.

The directness report is modelled as written. It prints the both-affixal
pairs whose directness values are EQUAL. Its name and the other two reports
suggest it was meant to print the pairs that differ. The model states what the
code does. Its counter is therefore one above the number of agreeing positions
(`Disagreements.ShowDisagreementsDirectness`).

Only one orientation of a symmetric antonym relation is stored: the one visited
first (`Antonyms.StoredIffSeenFirst`). That orientation's row is not
necessarily the first one seen. When the same orientation of two different
words is visited again, the new row overwrites the old one
(`Antonyms.LastVisitWins`). Only a pair of a word with itself keeps its first
row.

## Model

| member | source | states |
|---|---|---|
| Annotations.KeyOf | code/evaluation.py:11 | the dictionary key of a row: its pos element, then its neg element. |
| Dicts.Set | code/evaluation.py:12 | assignment to a key stores the value under it. All other entries are unchanged and no key is removed. An existing key keeps its position. A new key is appended to the iteration order. |
| Dicts.Distinct | code/evaluation.py:10-12 | the insertion order of a dictionary filled from a sequence of keys. It lists no key twice and exactly the keys of the sequence. |
| Dicts.DistinctOrder | code/evaluation.py:10-12 | that order lists the keys by the position of their first occurrence in the sequence. With the two facts above this fixes the order completely. |
| Dicts.Tail | code/evaluation.py:10 | `rows[1:]`: it drops the first row, and it is empty for an empty list. |
| Annotations.TailKeys | code/evaluation.py:10-11 | a key occurs among the keys of `rows[1:]` exactly when some row at index 1 or later carries it. |
| Annotations.GetAnnotations | code/evaluation.py:5-14 | the stored keys are exactly the keys of `rows[1:]`. The iteration order is their first-occurrence order: of two keys, the one listed first occurs first in `rows[1:]`. Each key holds the last row of `rows[1:]` with that key. The first row's key is present if and only if it reappears later. |
| Selection.Holds | code/evaluation.py:84-87 | the filters of the program on the two rows of a shared pair: none (line 24), both "affixal" (lines 41, 59-60), both "affixal" and both "indirect" (lines 84-87), and a filter refined by equality or inequality of one column (lines 105, 116, 131). |
| Selection.ReportFilters | code/evaluation.py:101-135 | the three report criteria hold exactly when the reports' own nested tests succeed: the column differs; both affixal and directness equal; both affixal, both indirect and subtype differs. |
| Selection.SelectFromMembers | code/evaluation.py:23-24 | a key is selected exactly when it is one of annotator 1's keys, annotator 2 holds it and the two rows meet the criterion. No key is selected twice. |
| Selection.SelectedMembers | code/evaluation.py:38-41 | over an annotation set: selected exactly when shared and the criterion holds. The selection has no repetitions. |
| Selection.LabelLists | code/evaluation.py:25-26 | the two label lists have equal length, the number of selected pairs. Position i of each list is the chosen column of the same pair's row for that annotator. |
| Selection.SharedCount | code/evaluation.py:23-27 | the number of shared pairs is the size of the intersection of the two key sets. |
| Selection.SelectedNarrower | code/evaluation.py:41-44 | a criterion that implies another selects no more pairs. |
| Selection.Cascade | code/evaluation.py:84-87 | both-affixal-and-indirect implies both-affixal, which implies shared. Refining any criterion by agreement or by disagreement on a column implies that criterion. |
| Selection.SelectFromAgreeing | code/evaluation.py:116 | refining a criterion by equality of a column keeps as many pairs as there are agreeing positions in that criterion's label lists. |
| Selection.SelectFromPartition | code/evaluation.py:105 | the pairs meeting a criterion split into those that agree and those that disagree on a column. |
| Selection.SelectedSplit | code/evaluation.py:131 | both facts above over two annotation sets. |
| Agreement.CalculateAgreementAffixals | code/evaluation.py:16-29 | n is the number of shared pairs, which is the size of the key intersection. kappa is the statistic applied to the affixal label lists of the shared pairs. |
| Agreement.CalculateAgreementDirectness | code/evaluation.py:31-46 | n is the number of shared both-affixal pairs. kappa is applied to their directness label lists. |
| Agreement.CalculateAgreementSubtypesAll | code/evaluation.py:48-71 | n is the number of shared both-affixal pairs. kappa and the confusion matrix are applied to their subtype label lists. |
| Agreement.CalculateAgreementSubtypesIndirect | code/evaluation.py:73-98 | n is the number of shared pairs that both call affixal and indirect. kappa and the confusion matrix are applied to their subtype label lists. |
| Disagreements.Values | code/evaluation.py:117-118 | the printed values are, for each column in turn, annotator 1's value and then annotator 2's. |
| Disagreements.ReportLines | code/evaluation.py:106 | one line per given pair, in order, carrying that pair and the values of its two rows. |
| Disagreements.ShowDisagreements | code/evaluation.py:101-109 | the lines are exactly the shared pairs that differ in the column, in annotator 1's order. The counter is 1 plus the number of lines. That is 1 plus the number of shared pairs minus the agreeing positions of the column's label lists. |
| Disagreements.DirectnessReportCount | code/evaluation.py:116-120 | the counter of the directness report is 1 plus the number of agreeing positions of the both-affixal directness label lists. |
| Disagreements.ShowDisagreementsDirectness | code/evaluation.py:111-121 | the lines are exactly the both-affixal pairs whose directness is equal, each with both directness and both subtype values. The counter is 1 plus the number of lines, which is 1 plus the number of agreeing directness positions. |
| Disagreements.ShowDisagreementsSubtype | code/evaluation.py:123-135 | the lines are exactly the both-affixal, both-indirect pairs whose subtype differs. The counter is 1 plus the number of lines. That is 1 plus the indirect n minus the agreeing subtype positions. |
| Evaluation.Evaluate | code/evaluation.py:137-165 | the two annotation sets are the loader's results for the two files. Each n is the number of selected pairs of its filter: the affixal n is also the size of the key intersection, and the all-subtypes n equals the directness n. Each kappa and each confusion matrix is the statistic applied to the label lists of its filter and column. The affixal counter is 1 plus the affixal n minus the agreeing affixal positions. The directness counter is 1 plus the agreeing directness positions of the both-affixal pairs. The subtype counter is 1 plus the indirect n minus the agreeing indirect subtype positions. The cascade follows: directness n at most affixal n, indirect n at most all-subtypes n, and each counter between 1 and one more than its calculation's n. |
| Antonyms.PairOf | code/get_wn_antonyms.py:11 | the key of a visit: the lemma's name, then the antonym's name. |
| Antonyms.Reversed | code/get_wn_antonyms.py:12 | the same two names in the other order. |
| Antonyms.RowOf | code/get_wn_antonyms.py:14-15 | the seven values stored for a visit, in the column order of the output file. |
| Antonyms.Step | code/get_wn_antonyms.py:11-15 | a visit changes nothing when the reversed pair is stored. Otherwise it stores the visit's row under the pair and changes no other entry. Keys are never removed: the key set is the old one, or the old one plus the pair. It preserves the invariant that no relation between different words is stored in both orientations. It also preserves that every row starts with its key's two names. |
| Antonyms.RevisitOverwrites | code/get_wn_antonyms.py:13-15 | visiting a stored pair of two different words again overwrites its row and nothing else. |
| Antonyms.SelfRevisitKeeps | code/get_wn_antonyms.py:11-13 | visiting a stored pair of a word with itself again changes nothing. |
| Antonyms.Collect | code/get_wn_antonyms.py:5-15 | the table after any sequence of visits has no relation of two different words in both orientations. Every row starts with its key's two names. |
| Antonyms.StoredIffSeenFirst | code/get_wn_antonyms.py:13 | a pair is stored if and only if one of its visits precedes every visit of the reversed pair. |
| Antonyms.LastVisitWins | code/get_wn_antonyms.py:14-15 | a stored pair of two different words holds the row of its last visit. |
| Antonyms.SelfPairFirstVisitKept | code/get_wn_antonyms.py:11-13 | a pair of a word with itself is stored with the row of its first visit. |
| Antonyms.CollectAntonyms | code/get_wn_antonyms.py:5-15 | the loop computes the fold of `Step` over the visits. So it has no symmetric duplicates, rows match keys, and the stored pairs are exactly those seen before their reverse. |

## Left out

- Cohen's kappa (a floating-point statistic) and the confusion matrix (a table of integer counts) come from statistics libraries. Each is a function parameter applied to the two label lists, and the model states only which lists each receives. An empty or single-valued list, on which kappa is undefined or NaN, gets no special treatment. Because kappa is an opaque parameter here, its symmetry in the two lists is not stated either.
- Opening and parsing the annotation files (code/evaluation.py:7-9) is I/O. The loader starts from the parsed rows. A parsed row holds every column of the file's header, but the model's `Row` keeps only the five columns the evaluation reads. The other columns are not modelled. A column missing from the header, which raises `KeyError`, is not modelled either.
- Every `print` of the driver and of the reports is console output. A report's printed text is modelled as its sequence of lines and its final counter.
- The driver's file names (code/evaluation.py:138-139) are I/O.
- `show_disagreements` is modelled for the five columns of `Row`. Its `element` argument is a column name, and any column of the file's header is accepted. A call on one of the other columns is not modelled, nor is the `KeyError` for a name absent from the header. The driver passes only `"affixal"`.
- The lexical-database traversal (code/get_wn_antonyms.py:6-10) is a foreign library. It is given as the flat sequence of (lemma, antonym) visits it makes, in order. Each visit carries the names, keys, part of speech and definitions the row is built from. A lemma without antonyms makes no visit.
- Writing the antonym file (code/get_wn_antonyms.py:19-26) is I/O. The modelled table keeps the key order the writer iterates over.
- The unused `random` import does nothing and is not modelled.
