/** `aiRespond`: the rule-based demo assistant. The reply is chosen by the
    first of three keyword rules that matches the lower-cased message. */
module Assistant {
  import opened Js
  import opened Seqs

  datatype Reply = SprintTips | ArcheryTips | NutritionTips | DefaultReply

  /** The text each reply shows. */
  function ReplyText(r: Reply): string
  {
    match r
    case SprintTips => "To improve 100m: work on reaction time, explosive starts, stride length, and strength. Do short sprints + plyometrics."
    case ArcheryTips => "Archery tips: consistent anchor point, focus on the target with your dominant eye, breathing control, and steady release."
    case NutritionTips => "General sports nutrition: balance carbs around training, include lean protein for recovery, stay hydrated."
    case DefaultReply => "Sorry, I'm a demo assistant. Try: \"improve 100m\" or \"archery eye\"."
  }

  /** `/100m|100 m|sprint/` */
  predicate SprintRule(t: string)
  {
    Includes(t, "100m") || Includes(t, "100 m") || Includes(t, "sprint")
  }

  /** `/archery|eye|aim/` */
  predicate ArcheryRule(t: string)
  {
    Includes(t, "archery") || Includes(t, "eye") || Includes(t, "aim")
  }

  /** `/diet|nutrition/` */
  predicate NutritionRule(t: string)
  {
    Includes(t, "diet") || Includes(t, "nutrition")
  }

  /** The reply to an already trimmed message: rules tried in order, first
      match wins, the default when none matches. */
  function ReplyTo(text: string): (r: Reply)
    ensures r == SprintTips <==> SprintRule(ToLower(text))
    ensures r == ArcheryTips <==> !SprintRule(ToLower(text)) && ArcheryRule(ToLower(text))
    ensures r == NutritionTips <==>
              !SprintRule(ToLower(text)) && !ArcheryRule(ToLower(text)) && NutritionRule(ToLower(text))
    ensures r == DefaultReply <==>
              !SprintRule(ToLower(text)) && !ArcheryRule(ToLower(text)) && !NutritionRule(ToLower(text))
  {
    var t := ToLower(text);
    if SprintRule(t) then SprintTips
    else if ArcheryRule(t) then ArcheryTips
    else if NutritionRule(t) then NutritionTips
    else DefaultReply
  }

  /** One exchange in the chat: the user's message, then the assistant's reply. */
  datatype Exchange = Exchange(message: string, reply: Reply)

  /** The whole of `aiRespond` on the raw input: nothing for a blank message,
      otherwise the trimmed message and the reply to it. */
  function Respond(input: string): (r: Option<Exchange>)
    ensures r.None? <==> forall i :: 0 <= i < |input| ==> IsWhitespace(input[i])
    ensures r.Some? ==> r.value.message == Trim(input) && r.value.message != ""
    ensures r.Some? ==> r.value.reply == ReplyTo(r.value.message)
  {
    var text := Trim(input);
    if text == "" then None else Some(Exchange(text, ReplyTo(text)))
  }

  /** Rule order: a message asking about sprint diet gets the sprint reply,
      never the nutrition one. */
  lemma {:induction false} SprintBeatsNutrition(text: string)
    requires Includes(ToLower(text), "sprint")
    ensures ReplyTo(text) == SprintTips
  {
  }

  /** The three regular expressions are alternations of literal keywords: a
      rule matches exactly when one of its keywords occurs at some position of
      the (lower-cased) text. */
  lemma RulesByPosition(t: string)
    ensures SprintRule(t) <==>
              exists k: nat :: OccursAt(t, "100m", k) || OccursAt(t, "100 m", k) || OccursAt(t, "sprint", k)
    ensures ArcheryRule(t) <==>
              exists k: nat :: OccursAt(t, "archery", k) || OccursAt(t, "eye", k) || OccursAt(t, "aim", k)
    ensures NutritionRule(t) <==>
              exists k: nat :: OccursAt(t, "diet", k) || OccursAt(t, "nutrition", k)
  {
    IncludesIff(t, "100m");
    IncludesIff(t, "100 m");
    IncludesIff(t, "sprint");
    IncludesIff(t, "archery");
    IncludesIff(t, "eye");
    IncludesIff(t, "aim");
    IncludesIff(t, "diet");
    IncludesIff(t, "nutrition");
  }

  /** The sprint reply is given exactly when "100m", "100 m" or "sprint"
      occurs in the message once its ASCII letters are lower-cased. */
  lemma SprintReplyByPosition(text: string)
    ensures ReplyTo(text) == SprintTips <==>
              exists k: nat :: OccursAt(ToLower(text), "100m", k) || OccursAt(ToLower(text), "100 m", k)
                               || OccursAt(ToLower(text), "sprint", k)
  {
    RulesByPosition(ToLower(text));
  }

  /** A concrete message: "How do I improve my 100m and diet?" gets the
      sprint reply because the 100m rule comes first. */
  lemma SprintExample()
    ensures ReplyTo("How do I improve my 100m and diet?") == SprintTips
  {
    var t := ToLower("How do I improve my 100m and diet?");
    assert t[20..24] == "100m";
    IncludesIff(t, "100m");
    assert OccursAt(t, "100m", 20);
  }
}
