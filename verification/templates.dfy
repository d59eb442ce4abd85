/** The three prompt templates of the chat endpoint. */
module Templates {

  /** The three prompt templates. */
  datatype Template = IdeaValidation | StrategyAdvice | FounderSupport

  /** The placeholder each template holds once, at its very end. */
  const Placeholder: string := "{message}"

  /* The opening line and the section headings of each template. Each is
     written as a concatenation of short pieces so that the verifier can
     check its characters piece by piece. */

  /** The opening line of the idea-validation template. */
  const IdeaValidationIntro: string :=
    "You are an "
    + "experienced "
    + "startup advisor "
    + "specializing in "
    + "idea "
    + "validation. "
    + "Analyze the "
    + "following "
    + "business idea "
    + "and provide "
    + "structured "
    + "feedback in "
    + "these sections:"

  /** The section headings of the idea-validation template, one per line. */
  const IdeaValidationSections: string :=
    "Market Opportunity:"
    + "\n" + "Target Market:"
    + "\n" + "Competitive Analysis:"
    + "\n" + "Potential Challenges:"
    + "\n" + "Unique Value Proposition:"
    + "\n" + "Next Steps:"

  /** The opening line of the strategy-advice template. */
  const StrategyAdviceIntro: string :=
    "You are a "
    + "strategic "
    + "startup advisor "
    + "with expertise "
    + "in company "
    + "building. "
    + "Provide "
    + "detailed "
    + "guidance for "
    + "the following "
    + "question, "
    + "structured in "
    + "these sections:"

  /** The section headings of the strategy-advice template, one per line. */
  const StrategyAdviceSections: string :=
    "Strategic Analysis:"
    + "\n" + "Resource Allocation:"
    + "\n" + "Growth Opportunities:"
    + "\n" + "Risk Assessment:"
    + "\n" + "Implementation Plan:"
    + "\n" + "Key Metrics:"

  /** The opening line of the founder-support template. */
  const FounderSupportIntro: string :=
    "You are a solo "
    + "founder mentor "
    + "specializing in "
    + "founder "
    + "well-being and "
    + "success. "
    + "Address the "
    + "following "
    + "concern with "
    + "practical "
    + "advice, "
    + "structured in "
    + "these sections:"

  /** The section headings of the founder-support template, one per line. */
  const FounderSupportSections: string :=
    "Problem Analysis:"
    + "\n" + "Immediate Actions:"
    + "\n" + "Long-term Solutions:"
    + "\n" + "Resource Recommendations:"
    + "\n" + "Support Network:"
    + "\n" + "Success Metrics:"

  /** The idea-validation template up to its placeholder. */
  const IdeaValidationPreamble: string :=
    IdeaValidationIntro + "\n\n" + IdeaValidationSections + "\n\nQuestion: "

  /** The strategy-advice template up to its placeholder. */
  const StrategyAdvicePreamble: string :=
    StrategyAdviceIntro + "\n\n" + StrategyAdviceSections + "\n\nQuestion: "

  /** The founder-support template up to its placeholder. */
  const FounderSupportPreamble: string :=
    FounderSupportIntro + "\n\n" + FounderSupportSections + "\n\nQuestion: "

  /** The text of a template before its placeholder. */
  function Preamble(t: Template): string
  {
    match t
    case IdeaValidation => IdeaValidationPreamble
    case StrategyAdvice => StrategyAdvicePreamble
    case FounderSupport => FounderSupportPreamble
  }

  /** The whole template text. */
  function TemplateText(t: Template): string
  {
    Preamble(t) + Placeholder
  }

  lemma IdeaValidationIntroNoBrace() ensures '{' !in IdeaValidationIntro { }
  lemma IdeaValidationSectionsNoBrace() ensures '{' !in IdeaValidationSections { }
  lemma StrategyAdviceIntroNoBrace() ensures '{' !in StrategyAdviceIntro { }
  lemma StrategyAdviceSectionsNoBrace() ensures '{' !in StrategyAdviceSections { }
  lemma FounderSupportIntroNoBrace() ensures '{' !in FounderSupportIntro { }
  lemma FounderSupportSectionsNoBrace() ensures '{' !in FounderSupportSections { }

  /** Gluing brace-free opening line and headings gives a brace-free preamble. */
  lemma GlueNoBrace(intro: string, sections: string)
    requires '{' !in intro && '{' !in sections
    ensures '{' !in intro + "\n\n" + sections + "\n\nQuestion: "
  {
  }

  lemma IdeaValidationNoBrace() ensures '{' !in IdeaValidationPreamble
  {
    IdeaValidationIntroNoBrace();
    IdeaValidationSectionsNoBrace();
    GlueNoBrace(IdeaValidationIntro, IdeaValidationSections);
  }

  lemma StrategyAdviceNoBrace() ensures '{' !in StrategyAdvicePreamble
  {
    StrategyAdviceIntroNoBrace();
    StrategyAdviceSectionsNoBrace();
    GlueNoBrace(StrategyAdviceIntro, StrategyAdviceSections);
  }

  lemma FounderSupportNoBrace() ensures '{' !in FounderSupportPreamble
  {
    FounderSupportIntroNoBrace();
    FounderSupportSectionsNoBrace();
    GlueNoBrace(FounderSupportIntro, FounderSupportSections);
  }

  /** No template has a '{' before its placeholder. */
  lemma PreambleHasNoBrace(t: Template)
    ensures '{' !in Preamble(t)
  {
    match t
    case IdeaValidation => IdeaValidationNoBrace();
    case StrategyAdvice => StrategyAdviceNoBrace();
    case FounderSupport => FounderSupportNoBrace();
  }
}
