/** `get_predicted_value`: the corrected symptoms are encoded as a 0/1 feature vector over the
    slots of `symptoms_dict`, the classifier is asked for a label, and the label is looked up in
    `diseases_list`. */
module Encoder {
  import opened Wrappers
  import Vocabulary

  /** What the classifier's `predict` gives for one feature vector: a class label, or an
      exception. */
  datatype ClassifierCall = Label(index: int) | Raised

  /** The trained classifier `svc`, as the outcome it gives for each feature vector. */
  type Classifier = seq<real> -> ClassifierCall

  /** Every symptom has a slot in `slots`, below `width`. */
  predicate InSlots(symptoms: seq<string>, slots: map<string, nat>, width: nat)
  {
    forall i | 0 <= i < |symptoms| :: symptoms[i] in slots && slots[symptoms[i]] < width
  }

  /** A vector of `width` zeros in which, symptom after symptom, the slot of the symptom is
      set to 1. */
  function FeatureVector(symptoms: seq<string>, slots: map<string, nat>, width: nat)
    : (v: seq<real>)
    requires InSlots(symptoms, slots, width)
    ensures |v| == width
  {
    if symptoms == [] then seq(width, _ => 0.0)
    else
      var n := |symptoms| - 1;
      FeatureVector(symptoms[..n], slots, width)[slots[symptoms[n]] := 1.0]
  }

  /** Slot `i` holds 1 exactly when some symptom has slot `i`, and 0 otherwise. */
  lemma {:induction false} FeatureVectorMarksSlots(
    symptoms: seq<string>, slots: map<string, nat>, width: nat, i: nat)
    requires InSlots(symptoms, slots, width)
    requires i < width
    ensures var v := FeatureVector(symptoms, slots, width);
      && (v[i] == 1.0 <==> exists j | 0 <= j < |symptoms| :: slots[symptoms[j]] == i)
      && (v[i] == 0.0 || v[i] == 1.0)
  {
    if symptoms != [] {
      var n := |symptoms| - 1;
      FeatureVectorMarksSlots(symptoms[..n], slots, width, i);
      assert forall j | 0 <= j < n :: symptoms[..n][j] == symptoms[j];
    }
  }

  /** The vector depends only on which symptoms occur: their order and repetitions do not
      matter. */
  lemma FeatureVectorIgnoresOrder(
    a: seq<string>, b: seq<string>, slots: map<string, nat>, width: nat)
    requires InSlots(a, slots, width) && InSlots(b, slots, width)
    requires forall s :: s in a <==> s in b
    ensures FeatureVector(a, slots, width) == FeatureVector(b, slots, width)
  {
    forall i | 0 <= i < width
      ensures FeatureVector(a, slots, width)[i] == FeatureVector(b, slots, width)[i]
    {
      FeatureVectorMarksSlots(a, slots, width, i);
      FeatureVectorMarksSlots(b, slots, width, i);
      if exists j | 0 <= j < |a| :: slots[a[j]] == i {
        var j :| 0 <= j < |a| && slots[a[j]] == i;
        assert a[j] in b;
      }
      if exists j | 0 <= j < |b| :: slots[b[j]] == i {
        var j :| 0 <= j < |b| && slots[b[j]] == i;
        assert b[j] in a;
      }
    }
  }

  /** The names whose slots hold 1 in `v`, reading slot `i` as `names[i]`. */
  function ActiveNames(v: seq<real>, names: seq<string>): (active: set<string>)
  {
    set i | 0 <= i < |v| && i < |names| && v[i] == 1.0 :: names[i]
  }

  /** Encoding loses nothing but order and repetition: when `slots` maps each of `names` to its
      position, the set bits of the vector name exactly the symptoms encoded. */
  lemma FeatureVectorRoundTrip(symptoms: seq<string>, names: seq<string>, slots: map<string, nat>)
    requires forall s | s in slots :: slots[s] < |names| && names[slots[s]] == s
    requires InSlots(symptoms, slots, |names|)
    ensures ActiveNames(FeatureVector(symptoms, slots, |names|), names) == set s | s in symptoms
  {
    var v := FeatureVector(symptoms, slots, |names|);
    forall s | s in ActiveNames(v, names) ensures s in symptoms {
      var i :| 0 <= i < |v| && i < |names| && v[i] == 1.0 && names[i] == s;
      FeatureVectorMarksSlots(symptoms, slots, |names|, i);
      var j :| 0 <= j < |symptoms| && slots[symptoms[j]] == i;
    }
    forall s | s in symptoms ensures s in ActiveNames(v, names) {
      var j :| 0 <= j < |symptoms| && symptoms[j] == s;
      var i := slots[s];
      FeatureVectorMarksSlots(symptoms, slots, |names|, i);
    }
  }

  /** Every symptom is a key of `symptoms_dict`, as the corrector guarantees. */
  predicate Known(symptoms: seq<string>, d: Vocabulary.Dictionaries)
  {
    forall s | s in symptoms :: s in d.symptomsDict
  }

  /** The feature vector `get_predicted_value` builds from `symptoms`: one slot per key of
      `symptoms_dict`, and 1 exactly at the slots of the symptoms given. */
  function Encode(symptoms: seq<string>, d: Vocabulary.Dictionaries): (v: seq<real>)
    requires Vocabulary.Consistent(d) && Known(symptoms, d)
    ensures |v| == |d.symptomsDict|
  {
    FeatureVector(symptoms, d.symptomsDict, |d.symptomsDict|)
  }

  /** Encoding then reading the set slots back through the key list gives the symptoms. */
  lemma EncodeRoundTrip(symptoms: seq<string>, d: Vocabulary.Dictionaries)
    requires Vocabulary.Consistent(d) && Known(symptoms, d)
    ensures ActiveNames(Encode(symptoms, d), d.validSymptoms) == set s | s in symptoms
  {
    FeatureVectorRoundTrip(symptoms, d.validSymptoms, d.symptomsDict);
  }

  /** What `get_predicted_value(symptoms)` returns. */
  function PredictedValue(svc: Option<Classifier>, d: Vocabulary.Dictionaries, symptoms: seq<string>)
    : (r: Option<string>)
    requires Vocabulary.Consistent(d) && Known(symptoms, d)
  {
    if svc.None? then None
    else
      match svc.value(Encode(symptoms, d))
      case Raised => None
      case Label(predIdx) =>
        if predIdx in d.diseasesList then Some(d.diseasesList[predIdx]) else None
  }

  /** The prediction fails exactly when there is no classifier, it raises, or its label is not
      a key of `diseases_list`; otherwise it is the disease of that label. */
  lemma PredictionFailsOnlyWhen(svc: Option<Classifier>, d: Vocabulary.Dictionaries, symptoms: seq<string>)
    requires Vocabulary.Consistent(d) && Known(symptoms, d)
    ensures PredictedValue(svc, d, symptoms).None? <==>
      || svc.None?
      || svc.value(Encode(symptoms, d)).Raised?
      || svc.value(Encode(symptoms, d)).index !in d.diseasesList
    ensures PredictedValue(svc, d, symptoms).Some? ==>
      PredictedValue(svc, d, symptoms).value == d.diseasesList[svc.value(Encode(symptoms, d)).index]
  {
  }

  /** A successful prediction names a disease of `diseases_list`. */
  lemma PredictionNamesDisease(svc: Option<Classifier>, d: Vocabulary.Dictionaries, symptoms: seq<string>)
    requires Vocabulary.Consistent(d) && Known(symptoms, d)
    ensures PredictedValue(svc, d, symptoms).Some? ==>
      PredictedValue(svc, d, symptoms).value in d.diseasesList.Values
  {
  }

  /** `get_predicted_value(patient_symptoms)`, building the vector in place in an array. */
  method GetPredictedValue(svc: Option<Classifier>, d: Vocabulary.Dictionaries, patientSymptoms: seq<string>)
    returns (r: Option<string>)
    requires Vocabulary.Consistent(d) && Known(patientSymptoms, d)
    ensures r == PredictedValue(svc, d, patientSymptoms)
  {
    if svc.None? {
      return None;
    }
    var slots := d.symptomsDict;
    var inputVector := new real[|slots|](_ => 0.0);
    assert inputVector[..] == FeatureVector([], slots, |slots|);
    for i := 0 to |patientSymptoms|
      invariant inputVector[..] == FeatureVector(patientSymptoms[..i], slots, |slots|)
    {
      inputVector[slots[patientSymptoms[i]]] := 1.0;
      assert patientSymptoms[..i + 1][..i] == patientSymptoms[..i];
    }
    assert patientSymptoms[..|patientSymptoms|] == patientSymptoms;
    match svc.value(inputVector[..])
    case Raised =>
      r := None;
    case Label(predIdx) =>
      r := if predIdx in d.diseasesList then Some(d.diseasesList[predIdx]) else None;
  }
}
