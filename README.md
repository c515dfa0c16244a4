# MediCare-Advisor symptom pipeline, in Dafny

This project models the request path of the MediCare-Advisor web application (`main.py`). A
user submits a comma-separated list of symptoms, and the `/predict` handler then:

1. tokenises the text: split on commas, strip whitespace, strip square brackets;
2. corrects every token against the 132 symptom names of `symptoms_dict` with a fuzzy
   matcher, keeping a match only when its score is strictly above 80;
3. encodes the corrected symptoms as a 0/1 feature vector, one slot per symptom, and asks the
   trained classifier for a label;
4. maps the label to a disease through `diseases_list` (41 diseases);
5. collects the disease's description, precautions, medications, diets and workouts from five
   reference tables (`helper`).

The page has one of three outcomes: "no valid symptoms", "prediction failed", or the disease
with its details. Every page echoes the submitted text.

Modules, one per file:

- `Wrappers` (`wrappers.dfy`): the `Option` type.
- `SymptomNames` (`symptom_names.dfy`): the 132 keys of `symptoms_dict`, in slot order, with
  the proof that they are distinct and non-empty.
- `Vocabulary` (`vocabulary.dfy`): `symptoms_dict`, `diseases_list`, and `Consistent`.
  `Consistent` is what the pipeline relies on in the tables: every key maps to its position in
  the key list, and no key is empty.
- `Tokeniser` (`tokeniser.dfy`): Python's `split`, `strip()` and `strip("[]")`.
- `Corrector` (`corrector.dfy`): `process.extractOne` over an abstract scorer, `correct_symptom`,
  and the correction loop.
- `Encoder` (`encoder.dfy`): `get_predicted_value`. It builds the vector in place in an array.
- `ReferenceData` (`reference_data.dfy`): `helper`. Its locals start at empty defaults and are
  overwritten from every table that was loaded.
- `Pipeline` (`pipeline.dfy`): `predict`, with a loop over the tokens.

Module-level state of the program becomes parameters of the model:

- the vocabulary tables (`Vocabulary.Dictionaries`; `Vocabulary.Builtin()` holds the
  program's own tables, proved `Consistent`);
- the scorer;
- the classifier, which may be absent;
- the five tables, each of which may be absent;
- the parser standing in for `ast.literal_eval`.

The precautions list keeps all four cells of every matching row, blank ones included, so it
has exactly four entries per matching row, and more than four when a disease has duplicate
rows (`ReferenceData.PrecautionsAreCells`).

## Model

| member | source | states |
|---|---|---|
| SymptomNames.KeysWellFormed | main.py:69-99 | the 132 keys of `symptoms_dict` are pairwise distinct and none is empty |
| Vocabulary.SlotMap | main.py:69-99 | the dictionary built from distinct names maps each name to its position and every key back to the name at its slot |
| Vocabulary.SymptomsDictBijective | main.py:69-99 | `symptoms_dict` has 132 keys and 132 distinct names, and its values are exactly the slots 0 to 131 |
| Vocabulary.SymptomNamesNonEmpty | main.py:69-99 | no key of `symptoms_dict` is the empty string |
| Vocabulary.DiseasesListLabels | main.py:102-112 | the labels of `diseases_list` are exactly 0 to 40 |
| Vocabulary.DiseasesListSize | main.py:102-112 | `diseases_list` has 41 entries |
| Vocabulary.BuiltinIsConsistent | main.py:69-112 | the program's tables are consistent: the key list is non-empty, lists the keys of `symptoms_dict` in slot order, every slot indexes back to its key, and no key is empty |
| Vocabulary.SlotMapConsistent | main.py:161 | any distinct, non-empty key list with its slot map, taken as `list(symptoms_dict.keys())`, gives consistent tables |
| Tokeniser.Split | main.py:158 | splitting at commas gives one more piece than there are commas, and no piece contains a comma |
| Tokeniser.JoinSplit | main.py:158 | re-joining the pieces of a split with the separator gives back the text |
| Tokeniser.SplitJoin | main.py:158 | splitting a join of separator-free pieces gives back the pieces |
| Tokeniser.TrimLeft | main.py:158-159 | left stripping never lengthens the text; what it keeps and removes is `Tokeniser.TrimLeftKeepsSuffix` |
| Tokeniser.TrimLeftKeepsSuffix | main.py:158-159 | left stripping keeps a suffix, removes only characters of the set, and stops at a character outside it |
| Tokeniser.TrimRight | main.py:158-159 | right stripping never lengthens the text; what it keeps and removes is `Tokeniser.TrimRightKeepsPrefix` |
| Tokeniser.TrimRightKeepsPrefix | main.py:158-159 | right stripping keeps a prefix, removes only characters of the set, and stops at a character outside it |
| Tokeniser.Strip | main.py:158-159 | a stripped string neither starts nor ends with a stripped character |
| Tokeniser.StripIsStrippedSlice | main.py:158-159 | the stripped string is the unique slice whose outside is all stripped characters and whose ends are not |
| Tokeniser.StripDropsOnlyChars | main.py:158-159 | everything removed by strip belongs to the set of stripped characters |
| Tokeniser.StripKeepsOut | main.py:158-159 | stripping never introduces a character absent from the input |
| Tokeniser.StripEach | main.py:158-159 | each comprehension keeps the number of tokens and strips every one of them |
| Tokeniser.Tokenise | main.py:158-159 | the two comprehensions give one token per comma-separated piece, one more than there are commas; the shape of each token is `Tokeniser.TokeniseShape` |
| Tokeniser.TokeniseShape | main.py:158-159 | there are one more tokens than commas in the input; no token holds a comma; no token starts or ends with a bracket |
| Tokeniser.TokeniseOnlyCommas | main.py:158-159 | an input of n commas (the empty input included) gives n + 1 empty tokens |
| Tokeniser.TokeniseKeepsSpacesInsideBrackets | main.py:158-159 | a bracketed comma-free token keeps the spaces inside its brackets, because whitespace is stripped before the brackets |
| Corrector.BestIndex | main.py:145 | the scan returns a valid position among the candidates; that it is the first maximum is `Corrector.BestIndexIsFirstMaximum` |
| Corrector.BestIndexIsFirstMaximum | main.py:145 | the index chosen holds a maximal score, and every earlier candidate scores strictly less |
| Corrector.ExtractOne | main.py:145 | the match returned is the candidate at its index, with that candidate's score |
| Corrector.ExtractOneIsFirstBest | main.py:145 | the match is the first candidate of maximal score |
| Corrector.CorrectSymptom | main.py:143-148 | an accepted symptom is the match `extractOne` returned; the full if-and-only-if is `Corrector.CorrectSymptomIsBestAboveThreshold` |
| Corrector.CorrectSymptomIsBestAboveThreshold | main.py:143-148 | a symptom is corrected if and only if some candidate scores strictly above 80; the correction is then a candidate scoring strictly above 80 and no less than any other candidate |
| Corrector.ThresholdIsStrict | main.py:146-148 | a best score of exactly 80 is rejected |
| Corrector.ExactSpellingAccepted | main.py:143-148 | a candidate typed exactly, scored 100 against itself, is accepted with a match of score 100 |
| Corrector.CorrectAll | main.py:162-166 | the loop keeps at most one symptom per token |
| Corrector.Kept | main.py:164-166 | one loop iteration appends at most one candidate: the token's own correction, appended exactly when `correct_symptom` returns a non-empty match, and nothing otherwise |
| Corrector.CorrectAllInVocabulary | main.py:162-166 | every kept symptom is a candidate, hence a key of `symptoms_dict` |
| Corrector.CorrectAllSingle | main.py:164-166 | with no empty candidate, a token contributes its match when it has one, and nothing otherwise |
| Corrector.CorrectAllAppend | main.py:162-166 | correction works token by token and keeps order: correcting a concatenation concatenates the corrections |
| Corrector.CorrectAllEmpty | main.py:162-167 | no symptom is kept if and only if no token has an accepted match |
| Encoder.FeatureVector | main.py:123-125 | the vector has one entry per slot |
| Encoder.FeatureVectorMarksSlots | main.py:123-125 | a slot holds 1 if and only if some symptom has that slot, and 0 otherwise |
| Encoder.FeatureVectorIgnoresOrder | main.py:123-125 | two symptom lists with the same members give the same vector, whatever their order and repetitions |
| Encoder.FeatureVectorRoundTrip | main.py:123-125 | reading the set slots back through the key list gives exactly the set of symptoms encoded |
| Encoder.Encode | main.py:123 | the vector has `len(symptoms_dict)` entries |
| Encoder.EncodeRoundTrip | main.py:123-125 | with consistent tables, decoding the vector gives back the symptoms as a set |
| Encoder.PredictionFailsOnlyWhen | main.py:116-131 | the prediction is `None` if and only if the classifier is absent, raises, or returns a label that is not a key of `diseases_list`; otherwise it is the disease of that label |
| Encoder.PredictionNamesDisease | main.py:128 | a successful prediction is one of the diseases of `diseases_list` |
| Encoder.GetPredictedValue | main.py:116-131 | returns `Encoder.PredictedValue`: `None` when the classifier is absent, raises or gives a label outside `diseases_list`, otherwise that label's disease; the array filled in place is the encoded vector |
| ReferenceData.Matching | main.py:48 | filtering keeps at most as many values as there are rows |
| ReferenceData.MatchingMembers | main.py:48 | a value is selected if and only if some row of the disease holds it |
| ReferenceData.MatchingEmpty | main.py:55 | the selection is empty if and only if no row belongs to the disease |
| ReferenceData.MatchingAppend | main.py:48 | the selection from concatenated rows is the concatenation of the selections |
| ReferenceData.MatchingFirst | main.py:56 | the first selected value comes from the first row of the disease |
| ReferenceData.JoinWords | main.py:49 | joining no text gives the empty string and joining one text gives it unchanged; longer lists are `ReferenceData.JoinWordsAppend` |
| ReferenceData.JoinWordsAppend | main.py:49 | joining two non-empty lists of texts is joining each and putting one space between them |
| ReferenceData.Flatten | main.py:52 | flattening gives exactly four cells per row |
| ReferenceData.FlattenAt | main.py:52 | cell k of row i is at position 4i + k of the flat list |
| ReferenceData.FirstParsed | main.py:55-60 | of the parsed lists only the first row's is kept, and with no row the result is empty |
| ReferenceData.DetailsDefaults | main.py:42-64 | each part defaults on its own: the description is empty, and each list is empty, whenever its own table is missing or holds no row of the disease, whatever the other tables hold |
| ReferenceData.UnknownDiseaseDetails | main.py:42-64 | a disease that no loaded table knows gets an empty description and four empty lists |
| ReferenceData.DescriptionOfOneRow | main.py:47-49 | with one description row the description is that row's text |
| ReferenceData.DescriptionOfTwoRows | main.py:47-49 | two description rows are both kept, in table order, joined by a space |
| ReferenceData.DescriptionOfSplitTable | main.py:47-49 | for any split of the description table into two parts that both hold rows of the disease, the description is the first part's description, a space, and the second part's |
| ReferenceData.PrecautionsAreCells | main.py:50-52 | the precautions list has four entries per matching row, and entry 4i + k is cell k of matching row i |
| ReferenceData.MedicationsOfFirstRow | main.py:53-56 | the medications are the parsed list of the disease's first medications row, or empty when it has none |
| ReferenceData.DietsOfFirstRow | main.py:57-60 | the diets are the parsed list of the disease's first diets row, or empty when it has none |
| ReferenceData.WorkoutsOfDisease | main.py:61-63 | the workouts are the workouts of the disease's rows, one per row, in table order, and a workout is listed if and only if some workout row of the disease holds it |
| ReferenceData.OtherRowsIgnored | main.py:48-62 | rows of other diseases, inserted anywhere in a table, do not change what is selected for this disease |
| ReferenceData.Helper | main.py:37-64 | returns `ReferenceData.Details`: each part keeps its empty default unless its table was loaded, and is then the joined descriptions, the flattened precaution cells, the first parsed medications and diets, or all the workouts of the disease |
| Pipeline.RecognisedAreKnown | main.py:163-170 | every recognised symptom is a key of `symptoms_dict`, so the encoder's lookup cannot fail |
| Pipeline.Predict | main.py:152-176 | returns `Pipeline.Respond`: the "no valid symptoms" page when no token is recognised, the "prediction failed" page when the prediction is `None`, and otherwise the disease with its `helper` details, always echoing the input |
| Pipeline.EchoesInput | main.py:168-176 | every page echoes the submitted text |
| Pipeline.NoValidSymptomsWhen | main.py:167-168 | the "no valid symptoms" page is rendered if and only if no token has an accepted match |
| Pipeline.PredictionFailedWhen | main.py:170-172 | once symptoms are recognised, the page lacks details if and only if the prediction is `None`, and then it shows the failure message |
| Pipeline.SuccessCarriesDetails | main.py:170-176 | a page with details names the predicted disease, one of `diseases_list`, and carries exactly what `helper` returns for it |
| Pipeline.NoClassifierNoDisease | main.py:121-122 | without a classifier no page names a disease: it shows one of the two messages |
| Pipeline.CommasOnlyRecogniseNothing | main.py:158-168 | an empty submission, or one of commas only, recognises nothing when the best score of the empty string is at most 80 |

## Left out

- The Flask application and its routes (`index`, `about`, `contact`, `blog`) render templates only. Only the values `predict` hands to `render_template` are modelled, as `Pipeline.Page`.
- The form field may be missing. `request.form.get` then returns `None` and `split` raises; the model takes the submitted text as a string.
- Loading the CSV files and the pickled classifier is I/O. Each table and the classifier are parameters that may be absent (`None`), as they are after a failed load.
- The rapidfuzz scorer is an abstract function into the reals from 0 to 100. Its string-similarity internals are not modelled; `extractOne`'s choice of the first maximal candidate is.
- The message printed when the classifier raises is console output, which the model does not produce. The model keeps only the `None` returned after it.
- The classifier is an abstract function from feature vectors to a label or an exception. Its internals are outside the program.
- Scores and vector entries are reals, not floating-point numbers, and NaN is not modelled. This covers the pandas NaN of an empty CSV cell, which `" ".join` would reject and the precautions list would carry.
- `ast.literal_eval` is an abstract parser from a cell to a list of strings. A cell it cannot parse, which would make `helper` raise, is not modelled.
- Corrector.CorrectSymptom: states only that an accepted symptom is the match `extractOne` returned; the full if-and-only-if is `Corrector.CorrectSymptomIsBestAboveThreshold`.
- Encoder.Encode: states only the vector length; which slots are set is `Encoder.FeatureVectorMarksSlots`.
- Corrector.BestIndex: states only that the position is valid; the first-maximum property is `Corrector.BestIndexIsFirstMaximum`.
- Tokeniser.TrimLeft: states only a length bound; the rest is `Tokeniser.TrimLeftKeepsSuffix`.
- Tokeniser.TrimRight: states only a length bound; the rest is `Tokeniser.TrimRightKeepsPrefix`.
- Tokeniser.Tokenise: states only the token count; the tokens' shape is `Tokeniser.TokeniseShape`.
- ReferenceData.JoinWords: states only the empty and single cases; longer lists are `ReferenceData.JoinWordsAppend`.
- Encoder.FeatureVector: states only the vector length; its contents are `Encoder.FeatureVectorMarksSlots` and `Encoder.FeatureVectorRoundTrip`.
- Corrector.CorrectAll: states only a length bound; what is kept is `Corrector.CorrectAllSingle`, `Corrector.CorrectAllAppend`, `Corrector.CorrectAllEmpty` and `Corrector.CorrectAllInVocabulary`.
- ReferenceData.Matching: states only a length bound; what is selected is `ReferenceData.MatchingMembers`, `ReferenceData.MatchingEmpty`, `ReferenceData.MatchingAppend` and `ReferenceData.MatchingFirst`.
- ReferenceData.Flatten: states only the length; positions are `ReferenceData.FlattenAt`.
- Pipeline.Predict and the other members take the vocabulary tables as parameters with `Vocabulary.Consistent` as a precondition. `Vocabulary.BuiltinIsConsistent` proves that the program's own tables meet it.
