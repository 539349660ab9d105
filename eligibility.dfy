/** `showEligibility`: the per-sport minimum age and advice note. */
module Eligibility {

  datatype Info = Info(minAge: nat, note: string)

  /** The three characters the script's text holds where its author typed a
      dash (a dash's UTF-8 bytes read back in another encoding). */
  const Dash: string := "\U{201A}\U{00C4}\U{00EE}"

  /** `eligibilityData`, keyed by the values of the sport select. */
  const EligibilityTable: map<string, Info> := map[
    "basketball" := Info(14, "Emphasis on height and vertical leap. Diet: high-protein, carbs around training."),
    "boxing" := Info(12, "Cardio and strength. Diet: lean proteins and controlled weight management."),
    "archery" := Info(10, "Focus on posture, eye alignment, steady hands. Diet: balanced for focus."),
    "marathon" := Info(16, "High mileage training, endurance fuel (carbohydrate-rich)."),
    "wrestling" := Info(12, "Strength, weight classes " + Dash + " controlled diet, protein."),
    "football" := Info(10, "Agility, endurance, team drills " + Dash + " balanced diet."),
    "badminton" := Info(10, "Explosiveness and reflexes " + Dash + " carbs and protein."),
    "cricket" := Info(10, "Skill-specific training " + Dash + " balanced diet.")
  ]

  /** What the eligibility box shows: nothing, "No info yet.", or the tag
      with the minimum age and the note. */
  datatype View = Blank | NoInfo | Shown(minAge: nat, note: string)

  function ShowEligibility(sport: string): (v: View)
    ensures v.Blank? <==> sport == ""
    ensures v.NoInfo? <==> sport != "" && sport !in EligibilityTable
    ensures v.Shown? ==> sport in EligibilityTable
                         && v.minAge == EligibilityTable[sport].minAge
                         && v.note == EligibilityTable[sport].note
  {
    if sport == "" then Blank
    else if sport !in EligibilityTable then NoInfo
    else Shown(EligibilityTable[sport].minAge, EligibilityTable[sport].note)
  }

  /** Every listed sport admits athletes from some age between 10 and 16, and
      the eight sports of the select are the table's keys. */
  lemma EligibilityAges()
    ensures forall s :: s in EligibilityTable ==> 10 <= EligibilityTable[s].minAge <= 16
    ensures EligibilityTable.Keys ==
              {"basketball", "boxing", "archery", "marathon", "wrestling", "football", "badminton", "cricket"}
  {
  }

  /** Archery, the demo's example, is open from age 10. */
  lemma ArcheryFromTen()
    ensures ShowEligibility("archery") == Shown(10, "Focus on posture, eye alignment, steady hands. Diet: balanced for focus.")
  {
  }
}
