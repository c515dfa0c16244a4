/** The fixed vocabulary of the prediction pipeline: `symptoms_dict` (symptom name to
    feature-vector slot) and `diseases_list` (classifier label to disease name). */
module Vocabulary {
  import SymptomNames

  /** Number of entries of `symptoms_dict`, hence the length of every feature vector. */
  const SymptomCount: nat := 132

  /** Number of entries of `diseases_list`. */
  const DiseaseCount: nat := 41

  /** `list(symptoms_dict.keys())`: the candidates offered to the fuzzy matcher, in slot order. */
  const ValidSymptoms: seq<string> := SymptomNames.Keys

  /** `symptoms_dict`: each name maps to its slot. */
  const SymptomsDict: map<string, nat> :=
    (SymptomNames.KeysWellFormed(); SlotMap(ValidSymptoms))

  /** The dictionary that maps each of the distinct `names` to its position. */
  function SlotMap(names: seq<string>): (m: map<string, nat>)
    requires SymptomNames.Distinct(names)
    ensures forall k | 0 <= k < |names| :: names[k] in m && m[names[k]] == k
    ensures forall s | s in m :: m[s] < |names| && names[m[s]] == s
  {
    map k | 0 <= k < |names| :: names[k] := k
  }

  /** `diseases_list`: classifier label to disease name, copied as written. */
  function DiseasesList(): (diseases: map<int, string>)
  {
    map[
      15 := "Fungal infection", 4 := "Allergy", 16 := "GERD",
      9 := "Chronic cholestasis", 14 := "Drug Reaction", 33 := "Peptic ulcer diseae",
      1 := "AIDS", 12 := "Diabetes", 17 := "Gastroenteritis",
      6 := "Bronchial Asthma", 23 := "Hypertension", 30 := "Migraine",
      7 := "Cervical spondylosis", 32 := "Paralysis (brain hemorrhage)", 28 := "Jaundice",
      29 := "Malaria", 8 := "Chicken pox", 11 := "Dengue",
      37 := "Typhoid", 40 := "hepatitis A", 19 := "Hepatitis B",
      20 := "Hepatitis C", 21 := "Hepatitis D", 22 := "Hepatitis E",
      3 := "Alcoholic hepatitis", 36 := "Tuberculosis", 10 := "Common Cold",
      34 := "Pneumonia", 13 := "Dimorphic hemmorhoids(piles)", 18 := "Heart attack",
      39 := "Varicose veins", 26 := "Hypothyroidism", 24 := "Hyperthyroidism",
      25 := "Hypoglycemia", 31 := "Osteoarthristis", 5 := "Arthritis",
      0 := "(vertigo) Paroymsal  Positional Vertigo", 2 := "Acne", 38 := "Urinary tract infection",
      35 := "Psoriasis", 27 := "Impetigo"
    ]
  }

  /** A sequence of distinct names has as many elements as positions. */
  lemma {:induction false} DistinctCard(s: seq<string>)
    requires SymptomNames.Distinct(s)
    ensures |set k | 0 <= k < |s| :: s[k]| == |s|
  {
    if s != [] {
      var n := |s| - 1;
      DistinctCard(s[..n]);
      var front := set k | 0 <= k < n :: s[..n][k];
      assert (set k | 0 <= k < |s| :: s[k]) == front + {s[n]};
      assert s[n] !in front;
    }
  }

  /** The slots 0 to n - 1, as a set. */
  function Slots(n: nat): (r: set<nat>)
    ensures forall k: nat :: k in r <==> k < n
    ensures |r| == n
  {
    if n == 0 then {} else
      var r := Slots(n - 1);
      assert n - 1 !in r;
      r + {n - 1}
  }

  /** A slot map has one entry per name, and its values are exactly the positions. */
  lemma SlotMapBijective(names: seq<string>)
    requires SymptomNames.Distinct(names)
    ensures |SlotMap(names)| == |names|
    ensures SlotMap(names).Values == Slots(|names|)
  {
    var m := SlotMap(names);
    assert m.Keys == set k | 0 <= k < |names| :: names[k];
    DistinctCard(names);
    forall v | v in Slots(|names|) ensures v in m.Values {
      assert m[names[v]] == v;
    }
  }

  /** `symptoms_dict` is a bijection between 132 distinct names and the slots 0 to 131. */
  lemma SymptomsDictBijective()
    ensures |ValidSymptoms| == SymptomCount && |SymptomsDict| == SymptomCount
    ensures SymptomsDict.Values == Slots(SymptomCount)
    ensures forall i, j | 0 <= i < j < |ValidSymptoms| :: ValidSymptoms[i] != ValidSymptoms[j]
  {
    SymptomNames.KeysWellFormed();
    SlotMapBijective(ValidSymptoms);
  }

  /** No symptom name is empty, so a successful correction is never falsy. */
  lemma SymptomNamesNonEmpty()
    ensures forall s | s in SymptomsDict :: s != ""
  {
    SymptomNames.KeysWellFormed();
  }

  lemma LabelsInRange()
    ensures forall i | i in DiseasesList() :: 0 <= i < DiseaseCount
  {
  }

  lemma RangeIsLabels()
    ensures forall i | 0 <= i < DiseaseCount :: i in DiseasesList()
  {
  }

  /** `diseases_list` has exactly the labels 0 to 40. */
  lemma DiseasesListLabels()
    ensures DiseasesList().Keys == Slots(DiseaseCount)
  {
    LabelsInRange();
    RangeIsLabels();
  }

  /** `diseases_list` has 41 entries. */
  lemma DiseasesListSize()
    ensures |DiseasesList()| == DiseaseCount
  {
    DiseasesListLabels();
    assert |DiseasesList()| == |DiseasesList().Keys|;
  }

  /** The module-level tables a request reads. */
  datatype Dictionaries = Dictionaries(
    validSymptoms: seq<string>,          // list(symptoms_dict.keys())
    symptomsDict: map<string, nat>,      // symptoms_dict
    diseasesList: map<int, string>)      // diseases_list

  /** The tables of the program. */
  function Builtin(): (d: Dictionaries)
  {
    Dictionaries(ValidSymptoms, SymptomsDict, DiseasesList())
  }

  /** What the pipeline relies on: the key list is non-empty and lists the keys of
      `symptoms_dict` in slot order, so every slot is below `len(symptoms_dict)`; and no key is
      the empty string. */
  ghost predicate Consistent(d: Dictionaries)
  {
    && d.validSymptoms != []
    && |d.validSymptoms| == |d.symptomsDict|
    && (forall i | 0 <= i < |d.validSymptoms| ::
          d.validSymptoms[i] in d.symptomsDict && d.symptomsDict[d.validSymptoms[i]] == i)
    && (forall s | s in d.symptomsDict ::
          d.symptomsDict[s] < |d.validSymptoms| && d.validSymptoms[d.symptomsDict[s]] == s)
    && SymptomNames.NoneEmpty(d.validSymptoms)
  }

  /** The program's tables are consistent. */
  lemma BuiltinIsConsistent()
    ensures Consistent(Builtin())
  {
    SymptomNames.KeysWellFormed();
    SlotMapConsistent(ValidSymptoms, DiseasesList());
  }

  /** Distinct, non-empty names with their slot map form consistent tables, whatever the
      disease table. */
  lemma SlotMapConsistent(names: seq<string>, diseases: map<int, string>)
    requires names != [] && SymptomNames.Distinct(names) && SymptomNames.NoneEmpty(names)
    ensures Consistent(Dictionaries(names, SlotMap(names), diseases))
  {
    SlotMapBijective(names);
  }
}
