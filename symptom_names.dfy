/** The keys of `symptoms_dict`, in the order the literal lists them, and the proof that they
    are distinct and non-empty. In the source literal each key's value is its position in this
    order (0 to 131), so only the keys are written here. They are listed in 12 parts so that the
    verifier compares names part by part. */
module SymptomNames {

  const Part0: seq<string> := [  // slots 0 to 10
    "itching", "skin_rash", "nodal_skin_eruptions", "continuous_sneezing",
    "shivering", "chills", "joint_pain", "stomach_pain",
    "acidity", "ulcers_on_tongue", "muscle_wasting"
  ]

  const Part1: seq<string> := [  // slots 11 to 21
    "vomiting", "burning_micturition", "spotting_ urination", "fatigue",
    "weight_gain", "anxiety", "cold_hands_and_feets", "mood_swings",
    "weight_loss", "restlessness", "lethargy"
  ]

  const Part2: seq<string> := [  // slots 22 to 32
    "patches_in_throat", "irregular_sugar_level", "cough", "high_fever",
    "sunken_eyes", "breathlessness", "sweating", "dehydration",
    "indigestion", "headache", "yellowish_skin"
  ]

  const Part3: seq<string> := [  // slots 33 to 43
    "dark_urine", "nausea", "loss_of_appetite", "pain_behind_the_eyes",
    "back_pain", "constipation", "abdominal_pain", "diarrhoea",
    "mild_fever", "yellow_urine", "yellowing_of_eyes"
  ]

  const Part4: seq<string> := [  // slots 44 to 54
    "acute_liver_failure", "fluid_overload", "swelling_of_stomach", "swelled_lymph_nodes",
    "malaise", "blurred_and_distorted_vision", "phlegm", "throat_irritation",
    "redness_of_eyes", "sinus_pressure", "runny_nose"
  ]

  const Part5: seq<string> := [  // slots 55 to 65
    "congestion", "chest_pain", "weakness_in_limbs", "fast_heart_rate",
    "pain_during_bowel_movements", "pain_in_anal_region", "bloody_stool", "irritation_in_anus",
    "neck_pain", "dizziness", "cramps"
  ]

  const Part6: seq<string> := [  // slots 66 to 76
    "bruising", "obesity", "swollen_legs", "swollen_blood_vessels",
    "puffy_face_and_eyes", "enlarged_thyroid", "brittle_nails", "swollen_extremeties",
    "excessive_hunger", "extra_marital_contacts", "drying_and_tingling_lips"
  ]

  const Part7: seq<string> := [  // slots 77 to 87
    "slurred_speech", "knee_pain", "hip_joint_pain", "muscle_weakness",
    "stiff_neck", "swelling_joints", "movement_stiffness", "spinning_movements",
    "loss_of_balance", "unsteadiness", "weakness_of_one_body_side"
  ]

  const Part8: seq<string> := [  // slots 88 to 98
    "loss_of_smell", "bladder_discomfort", "foul_smell_of urine", "continuous_feel_of_urine",
    "passage_of_gases", "internal_itching", "toxic_look_(typhos)", "depression",
    "irritability", "muscle_pain", "altered_sensorium"
  ]

  const Part9: seq<string> := [  // slots 99 to 109
    "red_spots_over_body", "belly_pain", "abnormal_menstruation", "dischromic _patches",
    "watering_from_eyes", "increased_appetite", "polyuria", "family_history",
    "mucoid_sputum", "rusty_sputum", "lack_of_concentration"
  ]

  const Part10: seq<string> := [  // slots 110 to 120
    "visual_disturbances", "receiving_blood_transfusion", "receiving_unsterile_injections", "coma",
    "stomach_bleeding", "distention_of_abdomen", "history_of_alcohol_consumption", "fluid_overload.1",
    "blood_in_sputum", "prominent_veins_on_calf", "palpitations"
  ]

  const Part11: seq<string> := [  // slots 121 to 131
    "painful_walking", "pus_filled_pimples", "blackheads", "scurring",
    "skin_peeling", "silver_like_dusting", "small_dents_in_nails", "inflammatory_nails",
    "blister", "red_sore_around_nose", "yellow_crust_ooze"
  ]

  const Parts: seq<seq<string>> := [
    Part0, Part1, Part2, Part3, Part4, Part5,
    Part6, Part7, Part8, Part9, Part10, Part11
  ]

  /** All 132 keys, in slot order. */
  const Keys: seq<string> := Concat(Parts)

  function Concat(parts: seq<seq<string>>): (r: seq<string>)
  {
    if parts == [] then [] else Concat(parts[..|parts| - 1]) + parts[|parts| - 1]
  }

  /** No two positions of `s` hold the same name. */
  ghost predicate Distinct(s: seq<string>)
  {
    forall i, j | 0 <= i < j < |s| :: s[i] != s[j]
  }

  /** No name of `a` is a name of `b`. */
  ghost predicate Disjoint(a: seq<string>, b: seq<string>)
  {
    forall i, j | 0 <= i < |a| && 0 <= j < |b| :: a[i] != b[j]
  }

  ghost predicate NoneEmpty(s: seq<string>)
  {
    forall i | 0 <= i < |s| :: s[i] != ""
  }

  /** Every part is free of repeats and empty names, and no two parts share a name. */
  ghost predicate PartsWellFormed(parts: seq<seq<string>>)
  {
    && (forall a | 0 <= a < |parts| :: Distinct(parts[a]) && NoneEmpty(parts[a]))
    && (forall a, b | 0 <= a < b < |parts| :: Disjoint(parts[a], parts[b]))
  }

  lemma Part0WellFormed()
    ensures Distinct(Part0) && NoneEmpty(Part0)
  {
  }

  lemma Part1WellFormed()
    ensures Distinct(Part1) && NoneEmpty(Part1)
  {
  }

  lemma Part2WellFormed()
    ensures Distinct(Part2) && NoneEmpty(Part2)
  {
  }

  lemma Part3WellFormed()
    ensures Distinct(Part3) && NoneEmpty(Part3)
  {
  }

  lemma Part4WellFormed()
    ensures Distinct(Part4) && NoneEmpty(Part4)
  {
  }

  lemma Part5WellFormed()
    ensures Distinct(Part5) && NoneEmpty(Part5)
  {
  }

  lemma Part6WellFormed()
    ensures Distinct(Part6) && NoneEmpty(Part6)
  {
  }

  lemma Part7WellFormed()
    ensures Distinct(Part7) && NoneEmpty(Part7)
  {
  }

  lemma Part8WellFormed()
    ensures Distinct(Part8) && NoneEmpty(Part8)
  {
  }

  lemma Part9WellFormed()
    ensures Distinct(Part9) && NoneEmpty(Part9)
  {
  }

  lemma Part10WellFormed()
    ensures Distinct(Part10) && NoneEmpty(Part10)
  {
  }

  lemma Part11WellFormed()
    ensures Distinct(Part11) && NoneEmpty(Part11)
  {
  }

  lemma Parts0x1Disjoint()
    ensures Disjoint(Part0, Part1)
  {
  }

  lemma Parts0x2Disjoint()
    ensures Disjoint(Part0, Part2)
  {
  }

  lemma Parts0x3Disjoint()
    ensures Disjoint(Part0, Part3)
  {
  }

  lemma Parts0x4Disjoint()
    ensures Disjoint(Part0, Part4)
  {
  }

  lemma Parts0x5Disjoint()
    ensures Disjoint(Part0, Part5)
  {
  }

  lemma Parts0x6Disjoint()
    ensures Disjoint(Part0, Part6)
  {
  }

  lemma Parts0x7Disjoint()
    ensures Disjoint(Part0, Part7)
  {
  }

  lemma Parts0x8Disjoint()
    ensures Disjoint(Part0, Part8)
  {
  }

  lemma Parts0x9Disjoint()
    ensures Disjoint(Part0, Part9)
  {
  }

  lemma Parts0x10Disjoint()
    ensures Disjoint(Part0, Part10)
  {
  }

  lemma Parts0x11Disjoint()
    ensures Disjoint(Part0, Part11)
  {
  }

  lemma Parts1x2Disjoint()
    ensures Disjoint(Part1, Part2)
  {
  }

  lemma Parts1x3Disjoint()
    ensures Disjoint(Part1, Part3)
  {
  }

  lemma Parts1x4Disjoint()
    ensures Disjoint(Part1, Part4)
  {
  }

  lemma Parts1x5Disjoint()
    ensures Disjoint(Part1, Part5)
  {
  }

  lemma Parts1x6Disjoint()
    ensures Disjoint(Part1, Part6)
  {
  }

  lemma Parts1x7Disjoint()
    ensures Disjoint(Part1, Part7)
  {
  }

  lemma Parts1x8Disjoint()
    ensures Disjoint(Part1, Part8)
  {
  }

  lemma Parts1x9Disjoint()
    ensures Disjoint(Part1, Part9)
  {
  }

  lemma Parts1x10Disjoint()
    ensures Disjoint(Part1, Part10)
  {
  }

  lemma Parts1x11Disjoint()
    ensures Disjoint(Part1, Part11)
  {
  }

  lemma Parts2x3Disjoint()
    ensures Disjoint(Part2, Part3)
  {
  }

  lemma Parts2x4Disjoint()
    ensures Disjoint(Part2, Part4)
  {
  }

  lemma Parts2x5Disjoint()
    ensures Disjoint(Part2, Part5)
  {
  }

  lemma Parts2x6Disjoint()
    ensures Disjoint(Part2, Part6)
  {
  }

  lemma Parts2x7Disjoint()
    ensures Disjoint(Part2, Part7)
  {
  }

  lemma Parts2x8Disjoint()
    ensures Disjoint(Part2, Part8)
  {
  }

  lemma Parts2x9Disjoint()
    ensures Disjoint(Part2, Part9)
  {
  }

  lemma Parts2x10Disjoint()
    ensures Disjoint(Part2, Part10)
  {
  }

  lemma Parts2x11Disjoint()
    ensures Disjoint(Part2, Part11)
  {
  }

  lemma Parts3x4Disjoint()
    ensures Disjoint(Part3, Part4)
  {
  }

  lemma Parts3x5Disjoint()
    ensures Disjoint(Part3, Part5)
  {
  }

  lemma Parts3x6Disjoint()
    ensures Disjoint(Part3, Part6)
  {
  }

  lemma Parts3x7Disjoint()
    ensures Disjoint(Part3, Part7)
  {
  }

  lemma Parts3x8Disjoint()
    ensures Disjoint(Part3, Part8)
  {
  }

  lemma Parts3x9Disjoint()
    ensures Disjoint(Part3, Part9)
  {
  }

  lemma Parts3x10Disjoint()
    ensures Disjoint(Part3, Part10)
  {
  }

  lemma Parts3x11Disjoint()
    ensures Disjoint(Part3, Part11)
  {
  }

  lemma Parts4x5Disjoint()
    ensures Disjoint(Part4, Part5)
  {
  }

  lemma Parts4x6Disjoint()
    ensures Disjoint(Part4, Part6)
  {
  }

  lemma Parts4x7Disjoint()
    ensures Disjoint(Part4, Part7)
  {
  }

  lemma Parts4x8Disjoint()
    ensures Disjoint(Part4, Part8)
  {
  }

  lemma Parts4x9Disjoint()
    ensures Disjoint(Part4, Part9)
  {
  }

  lemma Parts4x10Disjoint()
    ensures Disjoint(Part4, Part10)
  {
  }

  lemma Parts4x11Disjoint()
    ensures Disjoint(Part4, Part11)
  {
  }

  lemma Parts5x6Disjoint()
    ensures Disjoint(Part5, Part6)
  {
  }

  lemma Parts5x7Disjoint()
    ensures Disjoint(Part5, Part7)
  {
  }

  lemma Parts5x8Disjoint()
    ensures Disjoint(Part5, Part8)
  {
  }

  lemma Parts5x9Disjoint()
    ensures Disjoint(Part5, Part9)
  {
  }

  lemma Parts5x10Disjoint()
    ensures Disjoint(Part5, Part10)
  {
  }

  lemma Parts5x11Disjoint()
    ensures Disjoint(Part5, Part11)
  {
  }

  lemma Parts6x7Disjoint()
    ensures Disjoint(Part6, Part7)
  {
  }

  lemma Parts6x8Disjoint()
    ensures Disjoint(Part6, Part8)
  {
  }

  lemma Parts6x9Disjoint()
    ensures Disjoint(Part6, Part9)
  {
  }

  lemma Parts6x10Disjoint()
    ensures Disjoint(Part6, Part10)
  {
  }

  lemma Parts6x11Disjoint()
    ensures Disjoint(Part6, Part11)
  {
  }

  lemma Parts7x8Disjoint()
    ensures Disjoint(Part7, Part8)
  {
  }

  lemma Parts7x9Disjoint()
    ensures Disjoint(Part7, Part9)
  {
  }

  lemma Parts7x10Disjoint()
    ensures Disjoint(Part7, Part10)
  {
  }

  lemma Parts7x11Disjoint()
    ensures Disjoint(Part7, Part11)
  {
  }

  lemma Parts8x9Disjoint()
    ensures Disjoint(Part8, Part9)
  {
  }

  lemma Parts8x10Disjoint()
    ensures Disjoint(Part8, Part10)
  {
  }

  lemma Parts8x11Disjoint()
    ensures Disjoint(Part8, Part11)
  {
  }

  lemma Parts9x10Disjoint()
    ensures Disjoint(Part9, Part10)
  {
  }

  lemma Parts9x11Disjoint()
    ensures Disjoint(Part9, Part11)
  {
  }

  lemma Parts10x11Disjoint()
    ensures Disjoint(Part10, Part11)
  {
  }

  lemma {:induction false} ConcatWellFormed(parts: seq<seq<string>>)
    requires PartsWellFormed(parts)
    ensures Distinct(Concat(parts)) && NoneEmpty(Concat(parts))
  {
    if parts != [] {
      var front, last := parts[..|parts| - 1], parts[|parts| - 1];
      ConcatWellFormed(front);
      var c := Concat(front);
      forall i, j | 0 <= i < |c| && 0 <= j < |last| ensures c[i] != last[j] {
        ConcatMember(front, i);
      }
    }
  }

  lemma ConcatSnoc(parts: seq<seq<string>>, k: nat)
    requires k < |parts|
    ensures Concat(parts[..k + 1]) == Concat(parts[..k]) + parts[k]
  {
    assert parts[..k + 1][..k] == parts[..k];
  }

  lemma ConcatLength(parts: seq<seq<string>>, k: nat)
    requires k < |parts|
    ensures |Concat(parts[..k + 1])| == |Concat(parts[..k])| + |parts[k]|
  {
    ConcatSnoc(parts, k);
  }

  /** Every name of the concatenation comes from one of the parts. */
  lemma {:induction false} ConcatMember(parts: seq<seq<string>>, i: nat)
    requires i < |Concat(parts)|
    ensures exists a, k | 0 <= a < |parts| && 0 <= k < |parts[a]| :: Concat(parts)[i] == parts[a][k]
  {
    var front, last := parts[..|parts| - 1], parts[|parts| - 1];
    if i < |Concat(front)| {
      ConcatMember(front, i);
      var a, k :| 0 <= a < |front| && 0 <= k < |front[a]| && Concat(front)[i] == front[a][k];
      assert parts[a] == front[a];
    } else {
      assert Concat(parts)[i] == parts[|parts| - 1][i - |Concat(front)|];
    }
  }

  /** The twelve parts satisfy the hypotheses of `ConcatWellFormed`. */
  lemma PartsAreWellFormed()
    ensures PartsWellFormed(Parts)
  {
    Part0WellFormed(); Part1WellFormed(); Part2WellFormed(); Part3WellFormed();
    Part4WellFormed(); Part5WellFormed(); Part6WellFormed(); Part7WellFormed();
    Part8WellFormed(); Part9WellFormed(); Part10WellFormed(); Part11WellFormed();
    Parts0x1Disjoint(); Parts0x2Disjoint(); Parts0x3Disjoint(); Parts0x4Disjoint(); Parts0x5Disjoint(); Parts0x6Disjoint(); Parts0x7Disjoint(); Parts0x8Disjoint(); Parts0x9Disjoint(); Parts0x10Disjoint(); Parts0x11Disjoint();
    Parts1x2Disjoint(); Parts1x3Disjoint(); Parts1x4Disjoint(); Parts1x5Disjoint(); Parts1x6Disjoint(); Parts1x7Disjoint(); Parts1x8Disjoint(); Parts1x9Disjoint(); Parts1x10Disjoint(); Parts1x11Disjoint();
    Parts2x3Disjoint(); Parts2x4Disjoint(); Parts2x5Disjoint(); Parts2x6Disjoint(); Parts2x7Disjoint(); Parts2x8Disjoint(); Parts2x9Disjoint(); Parts2x10Disjoint(); Parts2x11Disjoint();
    Parts3x4Disjoint(); Parts3x5Disjoint(); Parts3x6Disjoint(); Parts3x7Disjoint(); Parts3x8Disjoint(); Parts3x9Disjoint(); Parts3x10Disjoint(); Parts3x11Disjoint();
    Parts4x5Disjoint(); Parts4x6Disjoint(); Parts4x7Disjoint(); Parts4x8Disjoint(); Parts4x9Disjoint(); Parts4x10Disjoint(); Parts4x11Disjoint();
    Parts5x6Disjoint(); Parts5x7Disjoint(); Parts5x8Disjoint(); Parts5x9Disjoint(); Parts5x10Disjoint(); Parts5x11Disjoint();
    Parts6x7Disjoint(); Parts6x8Disjoint(); Parts6x9Disjoint(); Parts6x10Disjoint(); Parts6x11Disjoint();
    Parts7x8Disjoint(); Parts7x9Disjoint(); Parts7x10Disjoint(); Parts7x11Disjoint();
    Parts8x9Disjoint(); Parts8x10Disjoint(); Parts8x11Disjoint();
    Parts9x10Disjoint(); Parts9x11Disjoint();
    Parts10x11Disjoint();
  }

  /** There are 132 keys. */
  lemma KeysLength()
    ensures |Keys| == 132
  {
    ConcatLength(Parts, 0);
    ConcatLength(Parts, 1);
    ConcatLength(Parts, 2);
    ConcatLength(Parts, 3);
    ConcatLength(Parts, 4);
    ConcatLength(Parts, 5);
    ConcatLength(Parts, 6);
    ConcatLength(Parts, 7);
    ConcatLength(Parts, 8);
    ConcatLength(Parts, 9);
    ConcatLength(Parts, 10);
    ConcatLength(Parts, 11);
    assert Parts[..12] == Parts;
  }

  /** The keys of `symptoms_dict` are 132 distinct non-empty names. */
  lemma KeysWellFormed()
    ensures |Keys| == 132 && Distinct(Keys) && NoneEmpty(Keys)
  {
    PartsAreWellFormed();
    KeysLength();
    ConcatWellFormed(Parts);
  }
}
